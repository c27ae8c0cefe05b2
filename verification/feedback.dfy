/** User-visible notices: the browser's `showAlert(message, type)` and the
    server's `flash(message, category)` both reduce to a category and a text. */
module Feedback {

  datatype Category = Success | Info | Warning | Danger

  datatype Notice = Notice(category: Category, message: string)
}
