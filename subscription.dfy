/**
 * The subscription status store: whether the user's subscription is active,
 * and an in-progress flag that a check raises and always lowers again.
 */
module Subscription {
  import opened Http
  import Js

  const SubscriptionEndpoint: string := "/payments/check-subscription-status"

  datatype SubscriptionState = SubscriptionState(isValid: bool, isChecking: bool)

  const InitialState: SubscriptionState := SubscriptionState(false, false)

  /**
   * The state a settled check leaves: valid exactly when the request succeeded
   * and the body's `data` field is the boolean `true` itself. A body that is
   * undefined or null makes reading `data` throw, which the check catches.
   */
  function Settled(response: Response<Js.Value>): (s: SubscriptionState)
    ensures !s.isChecking
    ensures s.isValid <==>
              response.Received? && response.data.Obj? &&
              "data" in response.data.fields && response.data.fields["data"] == Js.Bool(true)
  {
    match response
    case Failed => SubscriptionState(false, false)
    case Received(body) =>
      match Js.GetProp(body, "data")
      case None => SubscriptionState(false, false)
      case Some(flag) => SubscriptionState(flag == Js.Bool(true), false)
  }

  /** Strict comparison: a truthy `data` other than `true` itself (1, "true", an object, ...) is not valid. */
  lemma TruthyIsNotEnough(flag: Js.Value)
    requires Js.Truthy(flag) && flag != Js.Bool(true)
    ensures !Settled(Received(Js.Obj(map["data" := flag]))).isValid
  {
  }

  class SubscriptionStore {
    var isValid: bool
    var isChecking: bool

    function State(): SubscriptionState
      reads this
    {
      SubscriptionState(isValid, isChecking)
    }

    constructor ()
      ensures State() == InitialState
    {
      isValid := false;
      isChecking := false;
    }

    /** One check against the subscription endpoint, settled with the given response. */
    method CheckSubscription(response: Response<Js.Value>)
      modifies this
      ensures !isChecking
      ensures State() == Settled(response)
    {
      isChecking := true;
      match response {
        case Received(body) =>
          var flag := Js.GetProp(body, "data");
          if flag.None? {
            // reading `data` of undefined or null throws; the catch applies
            isValid := false;
          } else {
            isValid := flag.value == Js.Bool(true);
          }
        case Failed =>
          isValid := false;
      }
      isChecking := false;
    }
  }
}
