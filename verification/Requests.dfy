/** How a request to the API server ends. */
module Requests {

  /** It took effect and was acknowledged, it was refused, or it took effect but
      the caller was told it failed. */
  datatype Reply = Acknowledged | Refused | Unacknowledged
}
