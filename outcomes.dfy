/** Shared result types: an optional value, the outcome of a validator (the
    source's validators either return a value or throw an Error with a
    message), and the outcome of a request handler (its HTTP status class). */
module Outcomes {

  datatype Option<+T> = None | Some(value: T) {
    function GetOr(default: T): T {
      match this
      case Some(v) => v
      case None => default
    }
  }

  /** What a validator does: return the (possibly normalised) value, or
      throw an Error carrying a message. */
  datatype Checked<+T> = Pass(value: T) | Fail(message: string)

  /** The response of a request handler: Ok stands for 200 and 201;
      the others for 400, 403, 404 and 500. Each carries the error text
      the handler sends. */
  datatype Outcome<+T> =
    | Ok(value: T)
    | BadRequest(error: string)
    | Forbidden(error: string)
    | NotFound(error: string)
    | ServerError(error: string)
  {
    /** The same failure, passed on as the response of the handler that
        ran the failing step (a middleware, a validator). */
    function Forward<U>(): Outcome<U>
      requires !Ok?
    {
      match this
      case BadRequest(e) => BadRequest(e)
      case Forbidden(e) => Forbidden(e)
      case NotFound(e) => NotFound(e)
      case ServerError(e) => ServerError(e)
    }
  }

  /** A JavaScript string value is truthy when it is present and not empty. */
  predicate Truthy(s: Option<string>) {
    s.Some? && s.value != ""
  }

  /** A JavaScript number value (`None` when absent or null) is truthy when
      it is present and not 0. */
  predicate NumberTruthy(n: Option<int>) {
    n.Some? && n.value != 0
  }

  /** `inputs.map(check)` where `check` throws: every value, or the error
      of the first input that fails. */
  function CheckAll<A, B>(check: A -> Checked<B>, inputs: seq<A>): (r: Checked<seq<B>>)
    ensures r.Pass? ==> |r.value| == |inputs|
  {
    if inputs == [] then Pass([])
    else
      var first := check(inputs[0]);
      if first.Fail? then Fail(first.message)
      else
        var rest := CheckAll(check, inputs[1..]);
        if rest.Fail? then Fail(rest.message) else Pass([first.value] + rest.value)
  }

  /** The batch passes exactly when every input does, and then value k is
      input k's. */
  lemma {:induction false} CheckAllPointwise<A, B>(check: A -> Checked<B>, inputs: seq<A>)
    ensures CheckAll(check, inputs).Pass? <==> forall k :: 0 <= k < |inputs| ==> check(inputs[k]).Pass?
    ensures CheckAll(check, inputs).Pass? ==>
      forall k :: 0 <= k < |inputs| ==> CheckAll(check, inputs).value[k] == check(inputs[k]).value
  {
    if inputs != [] {
      CheckAllPointwise(check, inputs[1..]);
      assert forall k :: 1 <= k < |inputs| ==> inputs[1..][k - 1] == inputs[k];
    }
  }

  /** The first input that fails decides the error, whatever follows it. */
  lemma {:induction false} CheckAllFirstFail<A, B>(check: A -> Checked<B>, inputs: seq<A>, k: nat)
    requires k < |inputs| && check(inputs[k]).Fail?
    requires forall j :: 0 <= j < k ==> check(inputs[j]).Pass?
    ensures CheckAll(check, inputs) == Fail(check(inputs[k]).message)
  {
    if k > 0 {
      assert check(inputs[0]).Pass?;
      forall j | 0 <= j < k - 1
        ensures check(inputs[1..][j]).Pass?
      {
        assert inputs[1..][j] == inputs[j + 1];
      }
      CheckAllFirstFail(check, inputs[1..], k - 1);
    }
  }
}
