/**
 * The kinds of refusal the storefront's handlers answer with. The HTTP status
 * codes (400, 404, 500) and the human-readable messages are not modelled; each
 * handler's distinct early return is one constructor.
 */
module Errors {
  datatype Error =
    | NotFound            // product, order, user or cart item absent
    | InvalidSize         // no size entry with the requested label
    | InsufficientStock   // the requested quantity exceeds the entry's stock
    | InvalidQuantity     // a direct purchase of fewer than one unit
    | InvalidStatus       // order status outside Pending, Shipped, Delivered
    | EmptyCart           // checkout of a cart with no items
    | MissingFields       // a required request field is missing or falsy
    | InvalidRole         // role other than "admin" or "user"
    | EmailTaken          // e-mail address held by another account
    | NameTaken           // product name held by another product
    | InvalidSizes        // sizes not a non-empty array
    | UploadFailed        // the image store refused the upload
    | SchemaViolation     // a schema validator refused the document on save
}
