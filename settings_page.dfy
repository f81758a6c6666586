/**
 * public/settings.js: the profile picture and the account update form.
 */
module SettingsPage {
  import opened Text
  import opened Avatar
  import TextFacts
  import UserPage

  /** The update form's body: every field trimmed before it is sent. */
  function UpdateBody(currentUserName: string, currentPass: string, newUserName: string, newPass: string): (b: UserPage.AccountUpdate)
    ensures Trim(b.currentUserName) == b.currentUserName && Trim(b.currentPass) == b.currentPass
    ensures Trim(b.newUserName) == b.newUserName && Trim(b.newPass) == b.newPass
    ensures b.currentUserName == Trim(currentUserName) && b.currentPass == Trim(currentPass)
    ensures b.newUserName == Trim(newUserName) && b.newPass == Trim(newPass)
  {
    TextFacts.TrimIdempotent(currentUserName);
    TextFacts.TrimIdempotent(currentPass);
    TextFacts.TrimIdempotent(newUserName);
    TextFacts.TrimIdempotent(newPass);
    UserPage.AccountUpdate(Trim(currentUserName), Trim(currentPass), Trim(newUserName), Trim(newPass))
  }

  /** Submitting an already trimmed form sends it as it is, as the user page does. */
  lemma UpdateBodyOfTrimmedInput(a: string, b: string, c: string, d: string)
    requires Trim(a) == a && Trim(b) == b && Trim(c) == c && Trim(d) == d
    ensures UpdateBody(a, b, c, d) == UserPage.AccountUpdate(a, b, c, d)
  {
  }

  /**
   * `loadProfile`: the generated avatar of the stored name when the profile
   * cannot be fetched, otherwise `photo` of the profile's path and name (the
   * stored name when the profile has none).
   */
  function ProfileImage(fetched: bool, path: string, profileName: string, storedName: string): (img: Image)
    ensures !fetched ==> img == Generated(AvatarChar(storedName))
    ensures fetched && path != "" ==> img == Stored(path)
    ensures fetched && path == "" ==> img == Generated(AvatarChar(if profileName != "" then profileName else storedName))
  {
    if !fetched then Generated(AvatarChar(storedName))
    else Photo(path, if profileName != "" then profileName else storedName)
  }

  /** After a successful update the header shows the trimmed new name, whatever padding was typed. */
  function LabelAfterUpdate(newUserNameInput: string): (text: string)
    ensures text == UpdateBody("", "", newUserNameInput, "").newUserName
    ensures text == "" <==> Blank(newUserNameInput)
  {
    Trim(newUserNameInput)
  }
}
