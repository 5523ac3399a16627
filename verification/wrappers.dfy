/** Optional values, standing for Rust's `Option`: the completion service's
    answer (`None` when `chat_completion` returns nothing) and the pull-request
    fields the webhook payload may leave out (title, author). */
module Wrappers {
  datatype Option<+T> = None | Some(value: T)
}
