/** The regular expressions of the Drive helpers, as first-match searches.
    Each simple pattern has the shape `[first]lead([^stop]+)`: one character
    from a set, a literal, then a greedy capture of characters outside a
    stop set. `String.prototype.match` without the `g` flag reports the
    leftmost match, and group 1 is its capture. The one pattern with an
    inner `[^#]*` (`uc\?[^#]*id=([^&#]+)`) is written out separately. */
module Pattern {
  import opened Wrappers
  import opened Text

  /** How many characters a greedy `[^stop]*` takes at the start of `s`. */
  function RunLen(s: string, stop: set<char>): (n: nat)
    ensures n <= |s|
    ensures forall k :: 0 <= k < n ==> s[k] !in stop
    ensures n == |s| || s[n] in stop
  {
    if s == [] || s[0] in stop then 0 else 1 + RunLen(s[1..], stop)
  }

  datatype Simple = Simple(first: set<char>, lead: string, stop: set<char>)

  /** Where the capture of a match at `i` would start. */
  function CaptureStart(p: Simple, i: nat): nat {
    i + 1 + |p.lead|
  }

  /** The pattern matches at `i`: the leading character and literal are
      there and at least one character follows that is not a stop. */
  predicate MatchesAt(p: Simple, s: string, i: nat) {
    && i < |s| && s[i] in p.first && StartsWith(s[i + 1..], p.lead)
    && RunLen(s[CaptureStart(p, i)..], p.stop) > 0
  }

  /** The capture of a match at `i`: the longest stretch without a stop. */
  function CaptureAt(p: Simple, s: string, i: nat): (c: string)
    requires MatchesAt(p, s, i)
    ensures c != [] && forall k :: 0 <= k < |c| ==> c[k] !in p.stop
    ensures CaptureStart(p, i) + |c| <= |s| && c == s[CaptureStart(p, i)..CaptureStart(p, i) + |c|]
    ensures CaptureStart(p, i) + |c| == |s| || s[CaptureStart(p, i) + |c|] in p.stop
  {
    var t := s[CaptureStart(p, i)..];
    t[..RunLen(t, p.stop)]
  }

  /** The leftmost match at or after `from`. */
  function FirstMatchFrom(p: Simple, s: string, from: nat): Option<string>
    decreases |s| - from
  {
    if from >= |s| then None
    else if MatchesAt(p, s, from) then Some(CaptureAt(p, s, from))
    else FirstMatchFrom(p, s, from + 1)
  }

  /** `s.match(p)?.[1]`. */
  function FirstMatch(p: Simple, s: string): Option<string> {
    FirstMatchFrom(p, s, 0)
  }

  /** The search finds nothing exactly when no position matches, and
      otherwise reports the capture of the leftmost match. */
  lemma {:induction false} FirstMatchSpec(p: Simple, s: string, from: nat)
    ensures var r := FirstMatchFrom(p, s, from);
      && (r.None? <==> forall i :: from <= i < |s| ==> !MatchesAt(p, s, i))
      && (r.Some? ==> exists i :: from <= i < |s| && MatchesAt(p, s, i) && r.value == CaptureAt(p, s, i)
                        && forall j :: from <= j < i ==> !MatchesAt(p, s, j))
    decreases |s| - from
  {
    if from < |s| && !MatchesAt(p, s, from) {
      FirstMatchSpec(p, s, from + 1);
    }
  }

  /** A text without any of the pattern's leading characters has no match. */
  lemma NoLeadNoMatch(p: Simple, s: string)
    requires forall k :: 0 <= k < |s| ==> s[k] !in p.first
    ensures FirstMatch(p, s) == None
  {
    FirstMatchSpec(p, s, 0);
  }

  /** The capture of a match at the very start is read back exactly. */
  lemma MatchAtStart(p: Simple, c: char, id: string, tail: string)
    requires c in p.first && id != [] && forall k :: 0 <= k < |id| ==> id[k] !in p.stop
    requires tail == [] || tail[0] in p.stop
    ensures FirstMatch(p, [c] + p.lead + id + tail) == Some(id)
  {
    var s := [c] + p.lead + id + tail;
    var t := s[CaptureStart(p, 0)..];
    assert s[1..] == p.lead + id + tail;
    assert t == id + tail;
    assert RunLen(t, p.stop) == |id| by {
      RunLenPrefix(id, tail, p.stop);
    }
    assert t[..|id|] == id;
  }

  /** A greedy run over `id` stops at a following stop or end. */
  lemma {:induction false} RunLenPrefix(id: string, tail: string, stop: set<char>)
    requires forall k :: 0 <= k < |id| ==> id[k] !in stop
    requires tail == [] || tail[0] in stop
    ensures RunLen(id + tail, stop) == |id|
  {
    if id == [] {
      assert id + tail == tail;
    } else {
      assert (id + tail)[1..] == id[1..] + tail;
      RunLenPrefix(id[1..], tail, stop);
    }
  }

  /** Matches inside `t` are found at the same place after a prefix. */
  lemma {:induction false} ShiftMatch(p: Simple, base: string, t: string, k: nat)
    ensures FirstMatchFrom(p, base + t, |base| + k) == FirstMatchFrom(p, t, k)
    decreases |t| - k
  {
    var s := base + t;
    if k < |t| {
      assert s[|base| + k + 1..] == t[k + 1..];
      if CaptureStart(p, k) <= |t| {
        assert s[CaptureStart(p, |base| + k)..] == t[CaptureStart(p, k)..];
      }
      if !MatchesAt(p, t, k) {
        ShiftMatch(p, base, t, k + 1);
      }
    }
  }

  /** No match starts inside a prefix without leading characters. */
  lemma {:induction false} SkipPrefix(p: Simple, base: string, t: string, k: nat)
    requires k <= |base|
    requires forall i :: 0 <= i < |base| ==> base[i] !in p.first
    ensures FirstMatchFrom(p, base + t, k) == FirstMatchFrom(p, base + t, |base|)
    decreases |base| - k
  {
    if k < |base| {
      assert (base + t)[k] == base[k];
      SkipPrefix(p, base, t, k + 1);
    }
  }

  /** The capture of a match right after a prefix without leading
      characters is read back exactly. */
  lemma MatchAfter(p: Simple, base: string, c: char, id: string, tail: string)
    requires forall i :: 0 <= i < |base| ==> base[i] !in p.first
    requires c in p.first && id != [] && forall k :: 0 <= k < |id| ==> id[k] !in p.stop
    requires tail == [] || tail[0] in p.stop
    ensures FirstMatch(p, base + ([c] + p.lead + id + tail)) == Some(id)
  {
    var t := [c] + p.lead + id + tail;
    SkipPrefix(p, base, t, 0);
    ShiftMatch(p, base, t, 0);
    MatchAtStart(p, c, id, tail);
  }

  // ------------------------------------------------ uc\?[^#]*id=([^&#]+)

  const IdStop: set<char> := {'&', '#'}

  /** `id=` at `j`, followed by at least one capture character. */
  predicate IdCaptureAt(s: string, j: nat) {
    j <= |s| && StartsWith(s[j..], "id=") && RunLen(s[j + 3..], IdStop) > 0
  }

  /** The rightmost `j` in `lo..hi` with `IdCaptureAt`: the greedy
      `[^#]*` backs off from the right until `id=` fits. */
  function LastIdAt(s: string, lo: nat, hi: nat): (r: Option<nat>)
    ensures r.Some? ==>
      lo <= r.value <= hi && IdCaptureAt(s, r.value) && forall j :: r.value < j <= hi ==> !IdCaptureAt(s, j)
    ensures r.None? ==> forall j :: lo <= j <= hi ==> !IdCaptureAt(s, j)
    decreases hi
  {
    if hi < lo then None
    else if IdCaptureAt(s, hi) then Some(hi)
    else if hi == lo then None
    else LastIdAt(s, lo, hi - 1)
  }

  /** The position of `id=` for a match of the `uc?` pattern at `i`:
      `uc?`, then as many non-`#` characters as can be taken. */
  function UcIdAt(s: string, i: nat): (r: Option<nat>)
    ensures r.Some? ==> IdCaptureAt(s, r.value) && i + 3 <= r.value && '#' !in s[i + 3..r.value]
  {
    if i + 3 <= |s| && s[i..i + 3] == "uc?" then
      var hi := i + 3 + RunLen(s[i + 3..], {'#'});
      var r := LastIdAt(s, i + 3, hi);
      if r.Some? then
        assert forall k :: i + 3 <= k < r.value ==> s[k] == s[i + 3..][k - (i + 3)];
        r
      else None
    else None
  }

  /** The capture of the `uc?` pattern's leftmost match at or after `from`. */
  function UcMatchFrom(s: string, from: nat): Option<string>
    decreases |s| - from
  {
    if from >= |s| then None
    else match UcIdAt(s, from)
      case Some(j) => var t := s[j + 3..]; Some(t[..RunLen(t, IdStop)])
      case None => UcMatchFrom(s, from + 1)
  }

  function UcMatch(s: string): Option<string> {
    UcMatchFrom(s, 0)
  }

  /** Without a `?` the `uc?` pattern cannot match. */
  lemma {:induction false} NoQuestionNoUc(s: string, from: nat)
    requires '?' !in s
    ensures UcMatchFrom(s, from) == None
    decreases |s| - from
  {
    if from < |s| {
      if from + 3 <= |s| {
        assert s[from..from + 3][2] == s[from + 2] != '?';
      }
      NoQuestionNoUc(s, from + 1);
    }
  }

  /** A `uc?` match reports a non-empty capture with no `&` or `#`. */
  lemma UcCapture(s: string, from: nat)
    requires UcMatchFrom(s, from).Some?
    ensures var c := UcMatchFrom(s, from).value;
      c != [] && '&' !in c && '#' !in c
    decreases |s| - from
  {
    if from < |s| && UcIdAt(s, from).None? {
      UcCapture(s, from + 1);
    }
  }
}
