/** The reveal-seen cookie of `src/utils/cookies.ts`. The cookie jar is a
    single string field: writing a cookie assigns the text that `setCookie`
    builds, and reading scans the `;`-separated segments of that text. */
module Cookies {
  import opened Wrappers
  import opened Text

  const RevealCookieName := "brew-off-reveal-seen"
  const CookieExpiryDays := 365

  /** The text `setCookie` assigns; `expires` is the date text of the
      expiry instant. */
  function SetCookieText(name: string, value: string, expires: string): string {
    name + "=" + value + ";expires=" + expires + ";path=/;SameSite=Strict"
  }

  /** The text `clearRevealCookie` assigns. */
  const ClearTail := [';'] + "expires=Thu, 01 Jan 1970 00:00:00 GMT;path=/"
  const ClearRevealText := RevealCookieName + "=" + ClearTail

  /** A segment without its leading space characters (only ' ', no other
      white space). */
  function StripSpaces(c: string): (r: string)
    ensures r == [] || r[0] != ' '
  {
    if c != [] && c[0] == ' ' then StripSpaces(c[1..]) else c
  }

  /** Stripping removes a run of spaces at the front and nothing else: the
      result is a suffix of the segment, and everything before it is a
      space. */
  lemma {:induction false} StripSpacesSuffix(c: string)
    ensures var r := StripSpaces(c);
      && |r| <= |c| && r == c[|c| - |r|..]
      && forall k :: 0 <= k < |c| - |r| ==> c[k] == ' '
  {
    if c != [] && c[0] == ' ' {
      StripSpacesSuffix(c[1..]);
      var r := StripSpaces(c[1..]);
      assert forall k :: 1 <= k < |c| - |r| ==> c[k] == c[1..][k - 1];
    }
  }

  /** The value of the first segment that starts with `nameEQ` once its
      leading spaces are stripped. */
  function FirstValue(segments: seq<string>, nameEQ: string): Option<string> {
    if segments == [] then None
    else if StartsWith(StripSpaces(segments[0]), nameEQ) then Some(StripSpaces(segments[0])[|nameEQ|..])
    else FirstValue(segments[1..], nameEQ)
  }

  /** `FirstValue` finds nothing exactly when no segment, stripped, starts
      with `nameEQ`. */
  lemma {:induction false} FirstValueNone(segments: seq<string>, nameEQ: string)
    ensures FirstValue(segments, nameEQ).None?
        <==> forall k :: 0 <= k < |segments| ==> !StartsWith(StripSpaces(segments[k]), nameEQ)
  {
    if segments != [] {
      var t := segments[1..];
      FirstValueNone(t, nameEQ);
      assert forall k :: 0 < k < |segments| ==> segments[k] == t[k - 1];
    }
  }

  /** A value `FirstValue` finds is the rest of the first segment that,
      stripped, starts with `nameEQ`. */
  lemma {:induction false} FirstValueFound(segments: seq<string>, nameEQ: string)
    requires FirstValue(segments, nameEQ).Some?
    ensures exists k :: 0 <= k < |segments| && StripSpaces(segments[k]) == nameEQ + FirstValue(segments, nameEQ).value
                        && forall j :: 0 <= j < k ==> !StartsWith(StripSpaces(segments[j]), nameEQ)
  {
    var c := StripSpaces(segments[0]);
    var v := FirstValue(segments, nameEQ).value;
    if StartsWith(c, nameEQ) {
      assert c == nameEQ + c[|nameEQ|..];
      assert StripSpaces(segments[0]) == nameEQ + v;
    } else {
      var t := segments[1..];
      assert FirstValue(t, nameEQ) == FirstValue(segments, nameEQ);
      FirstValueFound(t, nameEQ);
      var k :| 0 <= k < |t| && StripSpaces(t[k]) == nameEQ + v
               && forall j :: 0 <= j < k ==> !StartsWith(StripSpaces(t[j]), nameEQ);
      assert t[k] == segments[k + 1];
      assert forall j :: 0 < j < k + 1 ==> segments[j] == t[j - 1];
      assert StripSpaces(segments[k + 1]) == nameEQ + v;
    }
  }

  /** What `getCookie(name)` returns for the cookie text. */
  function CookieValue(cookie: string, name: string): Option<string> {
    FirstValue(Split(cookie, ';'), name + "=")
  }

  /** `getCookie`: the loop over segments, with the inner loop that strips
      leading spaces. */
  method GetCookie(cookie: string, name: string) returns (r: Option<string>)
    ensures r == CookieValue(cookie, name)
  {
    var nameEQ := name + "=";
    var ca := Split(cookie, ';');
    var i := 0;
    assert ca[0..] == ca;
    while i < |ca|
      invariant 0 <= i <= |ca|
      invariant FirstValue(ca, nameEQ) == FirstValue(ca[i..], nameEQ)
    {
      var c := ca[i];
      while |c| > 0 && c[0] == ' '
        invariant StripSpaces(c) == StripSpaces(ca[i])
      {
        c := c[1..];
      }
      assert ca[i..][0] == ca[i] && ca[i..][1..] == ca[i + 1..];
      assert FirstValue(ca[i..], nameEQ)
          == if StartsWith(c, nameEQ) then Some(c[|nameEQ|..]) else FirstValue(ca[i + 1..], nameEQ);
      if StartsWith(c, nameEQ) {
        return Some(c[|nameEQ|..]);
      }
      i := i + 1;
    }
    return None;
  }

  /** A segment matches only when the name is followed by `=`: a cookie
      whose name merely starts with `name` is not found. */
  lemma NeedsEquals(name: string, other: string, value: string)
    requires |name| < |other| && other[..|name|] == name && other[|name|] != '='
    requires ';' !in other + "=" + value
    requires other == [] || other[0] != ' '
    ensures CookieValue(other + "=" + value, name).None?
  {
    var text := other + "=" + value;
    SplitPrefix(text, [], ';');
    assert Split([], ';') == [[]];
    assert text + [] == text;
    assert Split(text, ';') == [text];
    assert StripSpaces(text) == text;
    assert text[|name|] == other[|name|];
    assert (name + "=")[|name|] == '=';
    assert !StartsWith(text, name + "=");
    var segs: seq<string> := [text];
    assert segs[0] == text && segs[1..] == [];
    assert FirstValue(segs, name + "=") == FirstValue(segs[1..], name + "=");
  }

  /** `hasSeenReveal`. */
  predicate SeenReveal(cookie: string) {
    CookieValue(cookie, RevealCookieName) == Some("true")
  }

  /** A text that opens with `name=value` and then a `;` or nothing reads
      back as `value`. */
  lemma {:induction false} ReadBack(name: string, value: string, rest: string)
    requires ';' !in name && ';' !in value
    requires name == [] || name[0] != ' '
    requires rest == [] || rest[0] == ';'
    ensures CookieValue(name + "=" + value + rest, name) == Some(value)
  {
    var first := name + "=" + value;
    assert ';' !in first;
    SplitPrefix(first, rest, ';');
    if rest == [] {
      assert Split(rest, ';') == [[]];
      assert first + [] == first;
    } else {
      assert Split(rest, ';') == [[]] + Split(rest[1..], ';');
      assert first + [] == first;
    }
    assert Split(first + rest, ';')[0] == first;
    assert StripSpaces(first) == first;
    assert StartsWith(first, name + "=");
    assert first[|name + "="|..] == value;
  }

  /** A cookie written by `setCookie` reads back as its value, whatever the
      expiry text. */
  lemma SetThenGet(name: string, value: string, expires: string)
    requires ';' !in name && ';' !in value
    requires name == [] || name[0] != ' '
    ensures CookieValue(SetCookieText(name, value, expires), name) == Some(value)
  {
    var rest := ";expires=" + expires + ";path=/;SameSite=Strict";
    assert SetCookieText(name, value, expires) == name + "=" + value + rest;
    ReadBack(name, value, rest);
  }

  /** After `markRevealAsSeen` the reveal counts as seen. */
  lemma MarkSeen(expires: string)
    ensures SeenReveal(SetCookieText(RevealCookieName, "true", expires))
  {
    SetThenGet(RevealCookieName, "true", expires);
  }

  /** After `clearRevealCookie` it does not: the value reads as empty. */
  lemma ClearNotSeen()
    ensures CookieValue(ClearRevealText, RevealCookieName) == Some("")
    ensures !SeenReveal(ClearRevealText)
  {
    var rest := ClearTail;
    assert rest[0] == ';';
    assert ClearRevealText == RevealCookieName + "=" + "" + rest;
    ReadBack(RevealCookieName, "", rest);
  }

  class CookieJar {
    /** The cookie text. */
    var cookie: string

    constructor(initial: string)
      ensures cookie == initial
    {
      cookie := initial;
    }

    method SetCookie(name: string, value: string, expires: string)
      modifies this
      ensures cookie == SetCookieText(name, value, expires)
    {
      cookie := name + "=" + value + ";expires=" + expires + ";path=/;SameSite=Strict";
    }

    /** `markRevealAsSeen`; `expires` is the date text of the moment
        `CookieExpiryDays` days from now. */
    method MarkRevealAsSeen(expires: string)
      modifies this
      ensures cookie == SetCookieText(RevealCookieName, "true", expires)
      ensures SeenReveal(cookie)
    {
      SetCookie(RevealCookieName, "true", expires);
      MarkSeen(expires);
    }

    method ClearRevealCookie()
      modifies this
      ensures cookie == ClearRevealText
      ensures !SeenReveal(cookie)
    {
      cookie := RevealCookieName + "=" + ClearTail;
      ClearNotSeen();
    }

    method HasSeenReveal() returns (seen: bool)
      ensures seen == SeenReveal(cookie)
    {
      var v := GetCookie(cookie, RevealCookieName);
      seen := v == Some("true");
    }
  }
}
