/** Delivering one payload: a loop of attempts, until one of them settles it. */
module SenderRetries {

  const MAX_SUCCESSFUL_STATUS := 299
  const BAD_REQUEST := 400
  const INTERNAL_SERVER_ERROR := 500
  const BAD_GATEWAY := 502
  const SERVICE_UNAVAILABLE := 503
  const GATEWAY_TIMEOUT := 504

  /** The end of a single attempt: it couldn't be made, it was canceled (because the sender was closed),
      it timed out, it failed in another way, or the server responded. */
  datatype Answer = NotMade | Canceled | TimedOut | Failed | Response(code: int) {
    function Status(): int {
      match this
      case NotMade => INTERNAL_SERVER_ERROR
      case Canceled => SERVICE_UNAVAILABLE
      case TimedOut => GATEWAY_TIMEOUT
      case Failed => BAD_GATEWAY
      case Response(code) => code
    }

    predicate Retry() {
      match this
      case NotMade => false
      case Canceled => false
      case TimedOut => true
      case Failed => true
      case Response(code) => Retryable(code)
    }

    predicate IsSuccess() {
      Status() <= MAX_SUCCESSFUL_STATUS
    }
  }

  predicate Retryable(status: int) {
    status >= BAD_REQUEST && status !in {400, 401, 403, 404, 405, 407, 410, 411, 413, 414, 415, 422, 431, 501}
  }

  /** An attempt is worth a retry if no response was received (unless it couldn't even be made, or was canceled), or if
      the server responded with an error that may be temporary. */
  predicate IsWorthRetry(a: Answer) {
    || a.TimedOut? || a.Failed?
    || (a.Response? && (a.code in {402, 406, 408, 409, 412} || 416 <= a.code <= 421 || 423 <= a.code <= 430
                        || 432 <= a.code <= 500 || a.code >= 502))
  }

  lemma RetryMeansWorth(a: Answer)
    ensures a.Retry() <==> IsWorthRetry(a)
    ensures a.IsSuccess() <==> a.Response? && a.code < 300
    ensures a.IsSuccess() ==> !IsWorthRetry(a)
  {}

  /** The loop, where `closing(i)` tells if the sender is seen closing before attempt `i`, and `answer(i)` is how the
      attempt would end. It settles the payload exactly once: it's delivered if the last attempt succeeded, otherwise
      it's rejected. All the attempts before the last one failed in a way that's worth a retry, before the closing. */
  method SendWithRetries(maxAttempts: nat, closing: nat -> bool, answer: nat -> Answer)
    returns (attempts: nat, delivered: bool)
    ensures attempts <= maxAttempts && (maxAttempts > 0 ==> attempts > 0)
    ensures delivered <==> attempts > 0 && answer(attempts - 1).Response? && answer(attempts - 1).code < 300
    ensures forall i :: 0 <= i < attempts - 1 ==> IsWorthRetry(answer(i))
    ensures forall i :: 0 < i < attempts ==> !closing(i)
    ensures 0 < attempts < maxAttempts && !delivered ==> closing(attempts) || !IsWorthRetry(answer(attempts - 1))
  {
    var status := SERVICE_UNAVAILABLE;
    attempts := 0;
    for i := 0 to maxAttempts
      invariant attempts == i
      invariant i == 0 ==> status == SERVICE_UNAVAILABLE
      invariant i > 0 ==> status == answer(i - 1).Status()
      invariant forall k :: 0 <= k < i ==> IsWorthRetry(answer(k))
      invariant i > 0 ==> status > MAX_SUCCESSFUL_STATUS
      invariant forall k :: 0 < k < i ==> !closing(k)
    {
      if i > 0 && closing(i) {
        break;
      }
      var a := answer(i);
      attempts, status := i + 1, a.Status();
      if status <= MAX_SUCCESSFUL_STATUS {
        break;
      }
      if !a.Retry() {
        break;
      }
    }
    delivered := status <= MAX_SUCCESSFUL_STATUS;
  }
}
