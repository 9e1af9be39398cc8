/**
 * The login form: a trim check on the two fields, then a POST of the
 * credentials whose outcome decides the stored token, the navigation and
 * the error shown. The same logic, with another URL, is repeated in the
 * second copy of the page (src/Login.tsx).
 */
module LoginForm {
  import opened Wrappers
  import opened Browser

  const TokenUrl: string := "http://localhost:8000/api/v1/token"
  const RequiredMessage: string := "Username and password are required"
  const FallbackDetail: string := "Authentication failed"
  const GenericMessage: string := "An error occurred. Please try again later."

  /** The characters String.prototype.trim removes: ECMAScript WhiteSpace
      (tab, vertical tab, form feed, no-break space, byte order mark and the
      space separators) and LineTerminator. */
  predicate IsWhitespace(c: char)
  {
    || c == '\t' || c == '\U{000B}' || c == '\U{000C}' || c == ' ' || c == '\U{00A0}'
    || c == '\U{FEFF}' || c == '\U{1680}' || ('\U{2000}' <= c <= '\U{200A}')
    || c == '\U{202F}' || c == '\U{205F}' || c == '\U{3000}'
    || c == '\n' || c == '\r' || c == '\U{2028}' || c == '\U{2029}'
  }

  /** `s` with its leading whitespace removed. */
  function TrimStart(s: string): (r: string)
    ensures |r| <= |s| && r == s[|s| - |r|..]
    ensures forall k :: 0 <= k < |s| - |r| ==> IsWhitespace(s[k])
    ensures r != [] ==> !IsWhitespace(r[0])
  {
    if s != [] && IsWhitespace(s[0]) then TrimStart(s[1..]) else s
  }

  /** `s` with its trailing whitespace removed. */
  function TrimEnd(s: string): (r: string)
    ensures |r| <= |s| && r == s[..|r|]
    ensures forall k :: |r| <= k < |s| ==> IsWhitespace(s[k])
    ensures r != [] ==> !IsWhitespace(r[|r| - 1])
  {
    if s != [] && IsWhitespace(s[|s| - 1]) then TrimEnd(s[..|s| - 1]) else s
  }

  /** String.prototype.trim. */
  function Trim(s: string): string
  {
    TrimEnd(TrimStart(s))
  }

  /** `!s.trim()`: the trimmed string is empty exactly when every character
      of `s` is whitespace. */
  lemma {:induction false} TrimEmptyIffBlank(s: string)
    ensures Trim(s) == "" <==> forall k :: 0 <= k < |s| ==> IsWhitespace(s[k])
  {
    var t := TrimStart(s);
    assert t != [] ==> t[0] == s[|s| - |t|];
  }

  /** How the POST of the credentials ends: an ok response with its token, a
      non-ok response with the body's `detail` (absent when the body has
      none), or an exception (an Error with its message, or anything else). */
  datatype SubmitOutcome =
    | Ok(accessToken: string)
    | NotOk(detail: Option<string>)
    | Threw(thrown: Thrown)

  datatype Thrown = ErrorObject(message: string) | NonError

  /** The error text a failed submit shows: `errorData.detail || 'Authentication
      failed'` as an Error's message, the message of any other Error, or the
      generic text for a thrown non-Error. */
  function FailureMessage(outcome: SubmitOutcome): (m: string)
    requires !outcome.Ok?
    ensures outcome.NotOk? && Truthy(outcome.detail) ==> m == outcome.detail.value
    ensures outcome.NotOk? && !Truthy(outcome.detail) ==> m == FallbackDetail
    ensures outcome == Threw(NonError) ==> m == GenericMessage
    ensures outcome.Threw? && outcome.thrown.ErrorObject? ==> m == outcome.thrown.message
  {
    match outcome
    case NotOk(detail) => if Truthy(detail) then detail.value else FallbackDetail
    case Threw(ErrorObject(message)) => message
    case Threw(NonError) => GenericMessage
  }

  /** The navigation the mount effect makes: to "/home" when a token is stored. */
  function MountRedirect(token: Option<string>): (to: Option<string>)
    ensures to.Some? <==> Truthy(token)
    ensures to.Some? ==> to.value == "/home"
  {
    if Truthy(token) then Some("/home") else None
  }

  /** `validateForm`'s test: both fields are non-blank once trimmed. */
  predicate FormValid(username: string, password: string)
  {
    Trim(username) != "" && Trim(password) != ""
  }

  /** The credentials POST (its form-encoded body is not modelled). */
  const LoginRequest: Request :=
    Request(TokenUrl, "POST", [Header("Content-Type", "application/x-www-form-urlencoded")])

  /** Storage, navigation and error once a posted login settled: an ok
      response stores its token and goes home with no error; any other
      outcome shows its message, stores nothing and stays. */
  ghost predicate SubmitSettled(outcome: SubmitOutcome, before: map<string, string>,
                                after: map<string, string>, navigation: Option<string>,
                                error: string)
  {
    if outcome.Ok? then
      after == before[TokenKey := outcome.accessToken] && navigation == Some("/home") && error == ""
    else
      after == before && navigation == None && error == FailureMessage(outcome)
  }

  /** The form's state cells. */
  class Login {
    var username: string
    var password: string
    var error: string
    var loading: bool

    /** A fresh form: empty fields, no error, not loading. */
    constructor ()
      ensures username == "" && password == "" && error == "" && !loading
    {
      username := "";
      password := "";
      error := "";
      loading := false;
    }

    /** The username input's change handler. */
    method SetUsername(value: string)
      modifies this`username
      ensures username == value
    {
      username := value;
    }

    /** The password input's change handler. */
    method SetPassword(value: string)
      modifies this`password
      ensures password == value
    {
      password := value;
    }

    /** `validateForm`: false with the required-fields message when either
      field trims to nothing; otherwise the error is cleared. */
    method ValidateForm() returns (valid: bool)
      modifies this`error
      ensures valid <==> FormValid(username, password)
      ensures error == if valid then "" else RequiredMessage
    {
      if Trim(username) == "" || Trim(password) == "" {
        error := RequiredMessage;
        return false;
      }
      error := "";
      return true;
    }

    /** `handleSubmit`. An invalid form sends nothing and leaves `loading`
        alone. Otherwise the credentials are posted; an ok response stores
        the token and navigates home, any other outcome shows its message
        and stores nothing; `loading` ends false either way. */
    method HandleSubmit(storage: LocalStorage, outcome: SubmitOutcome)
      returns (request: Option<Request>, navigation: Option<string>)
      modifies this`error, this`loading, storage
      ensures !FormValid(username, password) ==>
                && request == None && navigation == None
                && error == RequiredMessage && loading == old(loading)
                && storage.items == old(storage.items)
      ensures FormValid(username, password) ==>
                && request == Some(LoginRequest) && !loading
                && SubmitSettled(outcome, old(storage.items), storage.items, navigation, error)
    {
      var valid := ValidateForm();
      if !valid {
        return None, None;
      }
      loading := true;
      request := Some(LoginRequest);
      navigation := Post(storage, outcome);
      loading := false;
    }

    /** The awaited part of `handleSubmit`, from the fetch to the `finally`. */
    method Post(storage: LocalStorage, outcome: SubmitOutcome) returns (navigation: Option<string>)
      requires error == ""
      modifies this`error, storage
      ensures SubmitSettled(outcome, old(storage.items), storage.items, navigation, error)
    {
      if outcome.Ok? {
        storage.SetItem(TokenKey, outcome.accessToken);
        navigation := Some("/home");
      } else {
        error := FailureMessage(outcome);
        navigation := None;
      }
    }
  }

  /** A submitted form was rejected by validation exactly when a field is
      blank. */
  lemma RejectedIffBlankField(username: string, password: string)
    ensures (Trim(username) == "" || Trim(password) == "") <==>
              (|| (forall k :: 0 <= k < |username| ==> IsWhitespace(username[k]))
               || (forall k :: 0 <= k < |password| ==> IsWhitespace(password[k])))
  {
    TrimEmptyIffBlank(username);
    TrimEmptyIffBlank(password);
  }
}
