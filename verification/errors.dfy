/** The variants of the gateway's `AppError` that the request translation and the
    forwarding decisions can return. */
module Errors {

  datatype AppError =
    | InvalidRequestFormat   // the body has no `messages` array
    | UnsupportedModel       // the model name belongs to no known family
    | UnsupportedProvider    // the provider name matches no upstream
    | InvalidMethod          // the inbound method is not a valid outbound method
    | MissingApiKey          // no usable credential header
    | InvalidHeader          // a credential cannot be turned into a header value
    | UpstreamFailure        // the upstream call or the read of its body failed
}
