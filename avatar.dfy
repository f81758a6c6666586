/**
 * The avatar helpers shared by messages.js (`defaultAvatarDataUrl`, `toPhotoUrl`),
 * contacts.js and settings.js (`defaultAvatar`, `photo`).  The SVG text and its
 * `encodeURIComponent` encoding are abstracted to the letter the image shows.
 */
module Avatar {
  import opened Wrappers
  import opened Text

  /** The first character of `s` that is not white space, if any (see `FirstVisibleIsTrimHead`). */
  function FirstVisible(s: string): (c: Option<char>)
    ensures c.Some? ==> !IsSpace(c.value) && c.value in s
    ensures c.None? <==> Blank(s)
  {
    if s == [] then None
    else if IsSpace(s[0]) then FirstVisible(s[1..])
    else Some(s[0])
  }

  /** The first visible character is the first character of `s.trim()`. */
  lemma {:induction false} FirstVisibleIsTrimHead(s: string)
    ensures Trim(s) == [] <==> FirstVisible(s).None?
    ensures Trim(s) != [] ==> FirstVisible(s) == Some(Trim(s)[0])
    decreases |s|
  {
    if s != [] && IsSpace(s[0]) {
      FirstVisibleIsTrimHead(s[1..]);
      assert TrimStart(s) == TrimStart(s[1..]);
    }
  }

  /**
   * `(label || "?").trim().charAt(0).toUpperCase() || "?"`: the letter drawn on a
   * generated avatar (`AvatarCharIsTrimHead` ties it to `trim`).  A missing name is
   * the empty string, and for it the expression is `"?".trim()...`, which is "?".
   */
  function AvatarChar(name: string): (ch: string)
    ensures |ch| == 1 && !('a' <= ch[0] <= 'z')
  {
    match FirstVisible(name)
    case None => "?"
    case Some(c) => [UpperChar(c)]
  }

  /** The letter is "?" for a blank name and the upper-cased head of the trimmed name otherwise. */
  lemma AvatarCharIsTrimHead(name: string)
    ensures Blank(name) ==> AvatarChar(name) == "?"
    ensures !Blank(name) ==> Trim(name) != [] && AvatarChar(name) == [UpperChar(Trim(name)[0])]
  {
    FirstVisibleIsTrimHead(name);
  }

  /** What an `<img src>` ends up showing. */
  datatype Image = Generated(letter: string) | Stored(url: string)

  /**
   * `photo(p, label)` / `toPhotoUrl(p, label)`: a falsy path (null or empty) gives
   * the generated avatar, any other path is used as given.
   */
  function Photo(path: string, name: string): (img: Image)
    ensures path == "" ==> img == Generated(AvatarChar(name))
    ensures path != "" ==> img == Stored(path)
  {
    if path == "" then Generated(AvatarChar(name)) else Stored(path)
  }

  lemma {:induction false} FirstVisiblePadding(pad: string, s: string)
    requires Blank(pad)
    ensures FirstVisible(pad + s) == FirstVisible(s)
    decreases |pad|
  {
    if pad != [] {
      assert (pad + s)[1..] == pad[1..] + s;
      FirstVisiblePadding(pad[1..], s);
    } else {
      assert pad + s == s;
    }
  }

  /** Leading white space in the name never changes the letter. */
  lemma AvatarCharIgnoresPadding(pad: string, name: string)
    requires Blank(pad)
    ensures AvatarChar(pad + name) == AvatarChar(name)
  {
    FirstVisiblePadding(pad, name);
  }

  lemma UpperLower(c: char)
    ensures UpperChar(LowerChar(c)) == UpperChar(c)
  {
  }

  lemma {:induction false} FirstVisibleLower(s: string)
    ensures FirstVisible(Lower(s)).None? <==> FirstVisible(s).None?
    ensures FirstVisible(s).Some? ==> FirstVisible(Lower(s)) == Some(LowerChar(FirstVisible(s).value))
    decreases |s|
  {
    if s != [] {
      assert Lower(s)[0] == LowerChar(s[0]) && Lower(s)[1..] == Lower(s[1..]);
      if IsSpace(s[0]) {
        FirstVisibleLower(s[1..]);
      }
    }
  }

  /** The letter does not depend on the case of the name. */
  lemma AvatarCharIgnoresCase(name: string)
    ensures AvatarChar(Lower(name)) == AvatarChar(name)
  {
    FirstVisibleLower(name);
    if FirstVisible(name).Some? {
      UpperLower(FirstVisible(name).value);
    }
  }
}
