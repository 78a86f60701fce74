/**
 * The settings form (src/components/SettingsForm.tsx): saving validates the
 * Clockify API key by looking up the current user, and on success replaces
 * the whole stored settings record; on failure the record is left alone and
 * the error is reported. The HTTP exchange is an input of the model.
 */
module SettingsForm {
  import opened Wrappers

  /** The fields of the Clockify user record that the form reads. */
  datatype ClockifyUser = ClockifyUser(
    id: string, name: string, profilePicture: string,
    activeWorkspace: string, defaultWorkspace: string)

  /** The user snapshot cached in the settings. */
  datatype UserSnapshot = UserSnapshot(
    id: string, name: string, profilePicture: string,
    activeWorkspace: string, defaultWorkspace: string)

  datatype AppSettings = AppSettings(
    clickup: string, clockify: string, user: Option<UserSnapshot>, workspaceId: string)

  /** The values of the two form fields. */
  datatype FormValues = FormValues(clickup: string, clockify: string)

  /** A decoded JSON response body, seen through the fields the code reads:
    * the user fields on success, `code` on failure. */
  datatype Body = Body(user: ClockifyUser, code: Option<int>)

  datatype Response = Response(ok: bool, body: Body)

  /** What `fetchCurrentUser` ends with: it returns a value or throws one.
    * A transport failure (the request or the JSON decoding rejects) throws
    * a value without a `code`. */
  datatype Thrown = ThrownBody(body: Body) | TransportFailure
  datatype Outcome = Returned(body: Body) | Threw(error: Thrown)

  datatype Toast = SuccessToast(message: string) | ErrorToast(message: string)

  const InvalidKeyCode := 4003
  const SavedMessage := "Settings saved"
  const InvalidKeyMessage := "Clockify API key is invalid"
  const FailedMessage := "Failed to save settings"

  /** `fetchCurrentUser` with the HTTP exchange as input (`None`: no response). */
  function FetchCurrentUser(response: Option<Response>): (o: Outcome)
    ensures o.Returned? <==> response.Some? && response.value.ok
    ensures o.Returned? ==> o.body == response.value.body
    ensures response.None? ==> o == Threw(TransportFailure)
    ensures response.Some? && !response.value.ok ==> o == Threw(ThrownBody(response.value.body))
  {
    if response.None? then Threw(TransportFailure)
    else if response.value.ok then Returned(response.value.body)
    else Threw(ThrownBody(response.value.body))
  }

  function ErrorCode(error: Thrown): Option<int> {
    if error.ThrownBody? then error.body.code else None
  }

  /** The message shown when saving fails. */
  function ErrorMessage(error: Thrown): (m: string)
    ensures m == InvalidKeyMessage <==> ErrorCode(error) == Some(InvalidKeyCode)
    ensures m == FailedMessage <==> ErrorCode(error) != Some(InvalidKeyCode)
  {
    var code := ErrorCode(error);
    if code.Some? && code.value == InvalidKeyCode then InvalidKeyMessage else FailedMessage
  }

  function Snapshot(user: ClockifyUser): (s: UserSnapshot)
    ensures s.id == user.id && s.name == user.name && s.profilePicture == user.profilePicture
    ensures s.activeWorkspace == user.activeWorkspace && s.defaultWorkspace == user.defaultWorkspace
  {
    UserSnapshot(user.id, user.name, user.profilePicture, user.activeWorkspace, user.defaultWorkspace)
  }

  /** The form fields reset from a stored record. */
  function FormOf(settings: AppSettings): FormValues {
    FormValues(settings.clickup, settings.clockify)
  }

  /** The record stored after a successful lookup: nothing of the old one survives. */
  function SavedSettings(values: FormValues, user: ClockifyUser): (s: AppSettings)
    ensures s.clickup == values.clickup && s.clockify == values.clockify
    ensures s.user == Some(Snapshot(user))
    ensures s.workspaceId == user.activeWorkspace
    ensures FormOf(s) == values
  {
    AppSettings(values.clickup, values.clockify, Some(Snapshot(user)), user.activeWorkspace)
  }

  class Form {
    var settings: AppSettings
    var form: FormValues
    var isFetchingUser: bool

    /** Opens with the stored record and its tokens in the fields. */
    constructor (stored: AppSettings)
      ensures settings == stored && form == FormOf(stored) && !isFetchingUser
    {
      settings := stored;
      form := FormOf(stored);
      isFetchingUser := false;
    }

    /** `useEffect` on `settings`: a new stored record resets the form fields. */
    method SetSettings(s: AppSettings)
      modifies this`settings, this`form
      ensures settings == s && form == FormOf(s)
    {
      settings := s;
      form := FormOf(settings);
    }

    /** Typing into the two password inputs (`getInputProps`) sets the fields. */
    method EditFields(v: FormValues)
      modifies this`form
      ensures form == v
    {
      form := v;
    }

    /** `handleSubmit`, called by the form's submit with the values its fields
      * hold: raise the fetching flag, look the user up, store the new record
      * only if the lookup returned, report, and clear the flag. Either way the
      * fields still show what was submitted. */
    method HandleSubmit(response: Option<Response>)
      returns (toast: Toast, ghost fetchingDuringLookup: bool)
      modifies this`settings, this`form, this`isFetchingUser
      ensures fetchingDuringLookup && !isFetchingUser
      ensures form == old(form)
      ensures var o := FetchCurrentUser(response);
        && (o.Returned? ==> settings == SavedSettings(old(form), o.body.user))
        && (o.Returned? ==> toast == SuccessToast(SavedMessage))
        && (o.Threw? ==> settings == old(settings))
        && (o.Threw? ==> toast == ErrorToast(ErrorMessage(o.error)))
    {
      var values := form;
      isFetchingUser := true;
      fetchingDuringLookup := isFetchingUser;
      var outcome := FetchCurrentUser(response);
      if outcome.Returned? {
        SetSettings(SavedSettings(values, outcome.body.user));
        toast := SuccessToast(SavedMessage);
      } else {
        toast := ErrorToast(ErrorMessage(outcome.error));
      }
      isFetchingUser := false;
    }
  }

  /** A rejected key: the stored record keeps the old key, the field keeps
    * the newly typed one, and the generic failure is reported. */
  method FailedSaveKeepsTypedValues() returns (f: Form, toast: Toast)
    ensures f.settings == AppSettings("cu", "oldkey", None, "")
    ensures f.form == FormValues("cu", "newkey") && !f.isFetchingUser
    ensures toast == ErrorToast(FailedMessage)
  {
    f := new Form(AppSettings("cu", "oldkey", None, ""));
    f.EditFields(FormValues("cu", "newkey"));
    ghost var up;
    toast, up := f.HandleSubmit(None);
  }
}
