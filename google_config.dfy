/**
 * The Google-configuration status store: whether the configured Google sites
 * validate, the error messages the backend reported, and an in-progress flag
 * that a check raises and always lowers again.
 */
module GoogleConfig {
  import opened Http
  import Js

  const GoogleSitesEndpoint: string := "/site/google-sites"

  const FailureMessage: string := "Failed to validate Google configuration"

  datatype ConfigState = ConfigState(isValid: bool, isChecking: bool, errors: seq<Js.Value>)

  const InitialState: ConfigState := ConfigState(true, false, [])

  /**
   * The state a settled check leaves, whatever the state before it: the
   * response body when it is an array (no other shape is accepted), the one
   * fixed message when the request failed; valid exactly when no error is
   * held, so valid only after a successful request.
   */
  function Settled(response: Response<Js.Value>): (s: ConfigState)
    ensures !s.isChecking
    ensures s.isValid <==> s.errors == []
    ensures s.isValid ==> response.Received?
    ensures response.Failed? ==> s.errors == [Js.Str(FailureMessage)]
    ensures response.Received? ==> s.errors == (if response.data.Arr? then response.data.items else [])
  {
    match response
    case Failed => ConfigState(false, false, [Js.Str(FailureMessage)])
    case Received(body) =>
      var errors := if body.Arr? then body.items else [];
      ConfigState(|errors| == 0, false, errors)
  }

  /** A body that is not an array counts as "no errors": the configuration is then reported valid. */
  lemma NonArrayBodyIsValid(body: Js.Value)
    requires !body.Arr?
    ensures Settled(Received(body)) == ConfigState(true, false, [])
  {
  }

  class GoogleConfigStore {
    var isValid: bool
    var isChecking: bool
    var errors: seq<Js.Value>

    function State(): ConfigState
      reads this
    {
      ConfigState(isValid, isChecking, errors)
    }

    /** Validity agrees with the error list in every settled state. */
    ghost predicate Valid()
      reads this
    {
      isValid <==> errors == []
    }

    constructor ()
      ensures Valid() && State() == InitialState
    {
      isValid := true;
      isChecking := false;
      errors := [];
    }

    /** One check against the Google-sites endpoint, settled with the given response. */
    method Check(response: Response<Js.Value>)
      modifies this
      ensures Valid() && !isChecking
      ensures State() == Settled(response)
    {
      isChecking := true;
      match response {
        case Received(body) =>
          errors := if body.Arr? then body.items else [];
          isValid := |errors| == 0;
        case Failed =>
          isValid := false;
          errors := [Js.Str(FailureMessage)];
      }
      isChecking := false;
    }
  }
}
