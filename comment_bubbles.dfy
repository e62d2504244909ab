/** The comment-bubble rotation of `src/components/CommentBubbles.tsx`.
    One `addNextComment` call is a state update over the visible bubbles,
    the set of used comment ids, the cursor and the created counter. The
    props it reads (`active`, the comments, `maxBubbles`) are parameters;
    the timers that call it and the removal timer are explicit events. The
    scan reads the state as it was when the call started, and the state
    updates the call queues are applied in order at its end. */
module CommentBubbles {
  import opened Wrappers
  import opened Types
  import opened Text

  /** A bubble's position, in percent of the container. */
  datatype Position = Position(x: int, y: int)

  /** The three grid slots below the hero card. */
  const GridPositions: seq<Position> := [Position(20, 105), Position(50, 105), Position(80, 105)]

  /** `getGridPosition`: round-robin over the three slots by the number of
      bubbles created so far. */
  function GridPosition(created: nat): (p: Position)
    ensures p in GridPositions
  {
    GridPositions[created % |GridPositions|]
  }

  /** Consecutive bubbles take the left, centre and right slots in turn. */
  lemma GridRoundRobin(created: nat)
    ensures GridPosition(created + 3) == GridPosition(created)
    ensures GridPosition(created) != GridPosition(created + 1)
    ensures GridPosition(created + 1) != GridPosition(created + 2)
    ensures GridPosition(created) != GridPosition(created + 2)
    ensures created % 3 == 0 ==> GridPosition(created) == Position(20, 105)
  {
  }

  /** A comment on screen with its slot. */
  datatype Bubble = Bubble(comment: Comment, position: Position)

  /** The component state. */
  datatype BubbleState = BubbleState(visible: seq<Bubble>, used: set<string>, cursor: nat, created: nat)

  /** What one call did: returned at once, threw while reading a comment
      past the end of the list, or added the comment at `index`. */
  datatype Outcome = NoOp | Faulted | Added(index: nat)

  datatype StepResult = StepResult(state: BubbleState, outcome: Outcome)

  /** `visibleComments.some(v => v.id === id)`. */
  predicate IsVisible(visible: seq<Bubble>, id: string) {
    exists k :: 0 <= k < |visible| && visible[k].comment.id == id
  }

  /** A comment the scan accepts: neither on screen nor used. */
  predicate Eligible(c: Comment, visible: seq<Bubble>, used: set<string>) {
    !IsVisible(visible, c.id) && c.id !in used
  }

  /** `a % n` for `a < 2 * n`, the only case the scan needs. */
  function Wrap(a: nat, n: nat): (r: nat)
    requires 0 < n && a < 2 * n
    ensures r < n
  {
    if a < n then a else a - n
  }

  /** Stepping the index as the scan does: `(i + 1) % n`. */
  lemma ModNext(x: int, n: int)
    requires 0 <= x < n
    ensures (x + 1) % n == if x + 1 < n then x + 1 else 0
  {
    if x + 1 == n {
      assert (x + 1) % n == n % n;
    }
  }

  /** The comment the scan examines after `m` steps from `cursor`. */
  function Candidate(comments: seq<Comment>, cursor: nat, m: nat): Comment
    requires cursor < |comments| && m < |comments|
  {
    comments[Wrap(cursor + m, |comments|)]
  }

  datatype ScanResult = Found(index: nat) | Exhausted

  /** The wrap-around scan, from its `loopCount`-th step on. */
  function Scan(comments: seq<Comment>, visible: seq<Bubble>, used: set<string>, cursor: nat, loopCount: nat): (r: ScanResult)
    requires cursor < |comments|
    ensures r.Found? ==> r.index < |comments|
    decreases |comments| - loopCount
  {
    if loopCount >= |comments| then Exhausted
    else if Eligible(Candidate(comments, cursor, loopCount), visible, used) then Found(Wrap(cursor + loopCount, |comments|))
    else Scan(comments, visible, used, cursor, loopCount + 1)
  }

  /** The scan stops at the first eligible candidate, and is exhausted when
      none of the remaining candidates is eligible. */
  lemma {:induction false} ScanSpec(comments: seq<Comment>, visible: seq<Bubble>, used: set<string>, cursor: nat, loopCount: nat)
    requires cursor < |comments|
    ensures var r := Scan(comments, visible, used, cursor, loopCount);
      && (r.Found? ==>
            exists k :: loopCount <= k < |comments| && r.index == Wrap(cursor + k, |comments|)
              && Eligible(Candidate(comments, cursor, k), visible, used)
              && forall m :: loopCount <= m < k ==> !Eligible(Candidate(comments, cursor, m), visible, used))
      && (r.Exhausted? ==> forall m :: loopCount <= m < |comments| ==> !Eligible(Candidate(comments, cursor, m), visible, used))
    decreases |comments| - loopCount
  {
    if loopCount < |comments| && !Eligible(Candidate(comments, cursor, loopCount), visible, used) {
      ScanSpec(comments, visible, used, cursor, loopCount + 1);
    }
  }

  /** Within `n` steps from any cursor the scan examines every comment. */
  lemma Covers(comments: seq<Comment>, cursor: nat, i: nat)
    requires cursor < |comments| && i < |comments|
    ensures exists m :: 0 <= m < |comments| && Candidate(comments, cursor, m) == comments[i]
  {
    var m := if i >= cursor then i - cursor else i + |comments| - cursor;
    assert Candidate(comments, cursor, m) == comments[i];
  }

  /** An exhausted scan means no comment at all is eligible. */
  lemma ExhaustedNoneEligible(comments: seq<Comment>, visible: seq<Bubble>, used: set<string>, cursor: nat)
    requires cursor < |comments| && Scan(comments, visible, used, cursor, 0).Exhausted?
    ensures forall i :: 0 <= i < |comments| ==> !Eligible(comments[i], visible, used)
  {
    ScanSpec(comments, visible, used, cursor, 0);
    forall i | 0 <= i < |comments|
      ensures !Eligible(comments[i], visible, used)
    {
      Covers(comments, cursor, i);
    }
  }

  /** The visible list after `shift` at capacity: the oldest bubble goes
      when there are already `maxBubbles` (a `shift` of an empty list does
      nothing). */
  function Evict(visible: seq<Bubble>, maxBubbles: int): seq<Bubble> {
    if |visible| >= maxBubbles && |visible| > 0 then visible[1..] else visible
  }

  /** One `addNextComment` call. */
  function Step(st: BubbleState, comments: seq<Comment>, active: bool, maxBubbles: int): StepResult {
    if !active || |comments| == 0 then StepResult(st, NoOp)
    else
      var n := |comments|;
      var early := |st.used| >= n;
      if st.cursor >= n then
        StepResult(if early then st.(used := {}, cursor := 0) else st, Faulted)
      else
        var scan := Scan(comments, st.visible, st.used, st.cursor, 0);
        var index := if scan.Found? then scan.index else 0;
        var chosen := comments[index];
        var base := if early || scan.Exhausted? then {} else st.used;
        StepResult(
          BubbleState(Evict(st.visible, maxBubbles) + [Bubble(chosen, GridPosition(st.created))],
                      base + {chosen.id}, (index + 1) % n, st.created + 1),
          Added(index))
  }

  /** Inactive, or with no comments, a call does nothing. */
  lemma StepIdle(st: BubbleState, comments: seq<Comment>, active: bool, maxBubbles: int)
    requires !active || comments == []
    ensures Step(st, comments, active, maxBubbles) == StepResult(st, NoOp)
  {
  }

  /** A cursor past the end of the list (the list shrank) makes the call
      throw; only the early reset of the used set and the cursor, queued
      before the throw, takes effect. */
  lemma StepFault(st: BubbleState, comments: seq<Comment>, maxBubbles: int)
    requires |comments| > 0 && st.cursor >= |comments|
    ensures var r := Step(st, comments, true, maxBubbles);
      && r.outcome == Faulted
      && r.state.visible == st.visible && r.state.created == st.created
      && (if |st.used| >= |comments| then r.state.used == {} && r.state.cursor == 0 else r.state == st)
  {
  }

  /** The comment chosen is the first eligible one from the cursor on, or,
      when none is eligible, the first comment, with the used set cleared. */
  lemma StepChoice(st: BubbleState, comments: seq<Comment>, maxBubbles: int)
    requires |comments| > 0 && st.cursor < |comments|
    ensures var r := Step(st, comments, true, maxBubbles);
      r.outcome.Added? && r.outcome.index < |comments| &&
      var c := comments[r.outcome.index];
      || (&& Eligible(c, st.visible, st.used)
          && exists k :: 0 <= k < |comments| && c == Candidate(comments, st.cursor, k)
               && forall m :: 0 <= m < k ==> !Eligible(Candidate(comments, st.cursor, m), st.visible, st.used))
      || (&& r.outcome.index == 0 && r.state.used == {c.id}
          && forall i :: 0 <= i < |comments| ==> !Eligible(comments[i], st.visible, st.used))
  {
    ScanSpec(comments, st.visible, st.used, st.cursor, 0);
    if Scan(comments, st.visible, st.used, st.cursor, 0).Exhausted? {
      ExhaustedNoneEligible(comments, st.visible, st.used, st.cursor);
    }
  }

  /** After an added comment: the new bubble is last, in the slot of the
      created counter; the oldest bubble went if the list was full; the
      chosen id is used; the cursor is one past the chosen comment; the
      counter grew by one. The used set keeps its ids unless it was full or
      the scan came up empty, when it holds the chosen id alone. With room
      for at least one bubble the list never grows past `maxBubbles`. */
  lemma StepAdds(st: BubbleState, comments: seq<Comment>, maxBubbles: int)
    requires |comments| > 0 && st.cursor < |comments|
    ensures var r := Step(st, comments, true, maxBubbles);
      r.outcome.Added? &&
      var i := r.outcome.index;
      && r.state.visible[|r.state.visible| - 1] == Bubble(comments[i], GridPositions[st.created % 3])
      && r.state.visible[..|r.state.visible| - 1] == (if |st.visible| >= maxBubbles && st.visible != [] then st.visible[1..] else st.visible)
      && comments[i].id in r.state.used && r.state.used <= st.used + {comments[i].id}
      && (|st.used| >= |comments| ==> r.state.used == {comments[i].id})
      && (Scan(comments, st.visible, st.used, st.cursor, 0).Exhausted? ==> r.state.used == {comments[i].id})
      && (|st.used| < |comments| && Scan(comments, st.visible, st.used, st.cursor, 0).Found? ==>
            r.state.used == st.used + {comments[i].id})
      && r.state.cursor == (if i + 1 < |comments| then i + 1 else 0) && r.state.created == st.created + 1
      && (1 <= maxBubbles && |st.visible| <= maxBubbles ==> |r.state.visible| <= maxBubbles)
  {
    var r := Step(st, comments, true, maxBubbles);
    var b := Bubble(comments[r.outcome.index], GridPosition(st.created));
    assert r.state.visible == Evict(st.visible, maxBubbles) + [b];
    assert r.state.visible[..|r.state.visible| - 1] == Evict(st.visible, maxBubbles);
    ModNext(r.outcome.index, |comments|);
  }

  /** The fallback can put a comment on screen twice: with a single
      comment already showing and room for two bubbles, the scan finds
      nothing and the first comment is added again. */
  lemma DuplicateOnFallback(c: Comment)
    ensures var st := BubbleState([Bubble(c, GridPosition(0))], {c.id}, 0, 1);
      var r := Step(st, [c], true, 2);
      && r.outcome == Added(0)
      && |r.state.visible| == 2 && r.state.visible[0].comment == r.state.visible[1].comment
  {
    var st := BubbleState([Bubble(c, GridPosition(0))], {c.id}, 0, 1);
    assert st.visible[0].comment.id == c.id;
    assert Candidate([c], 0, 0) == c;
    assert !Eligible(Candidate([c], 0, 0), st.visible, st.used);
    assert Scan([c], st.visible, st.used, 0, 0) == Exhausted;
  }

  /** `getBubbleColor` palette. */
  const Colors: seq<string> := ["bg-blue-100", "bg-amber-100", "bg-emerald-100", "bg-indigo-100", "bg-rose-100", "bg-cyan-100"]

  /** `charCodeAt(0)` of a character: its UTF-16 code unit, which for a
      character beyond the basic plane is the high surrogate. */
  function CodeUnit(c: char): nat {
    if c as int < 0x1_0000 then c as int else 0xD800 + (c as int - 0x1_0000) / 0x400
  }

  /** `getBubbleColor`: the first character's code unit picks the colour;
      for an empty id `charCodeAt(0)` is NaN and there is no colour. */
  function BubbleColor(id: string): (r: Option<string>)
    ensures r.Some? <==> id != []
    ensures r.Some? ==> r.value in Colors
  {
    if id == [] then None else Some(Colors[CodeUnit(id[0]) % |Colors|])
  }

  /** The colour depends on the first character only. */
  lemma ColorFromFirstChar(a: string, b: string)
    requires a != [] && b != [] && a[0] == b[0]
    ensures BubbleColor(a) == BubbleColor(b)
  {
  }

  /** `filter((comment) => comment.id !== id)`. */
  function OtherThan(id: string): Bubble -> bool {
    (b: Bubble) => b.comment.id != id
  }

  /** The removal event drops exactly the bubbles with that id. */
  lemma RemoveDropsOnly(visible: seq<Bubble>, id: string)
    ensures !IsVisible(Filter(visible, OtherThan(id)), id)
    ensures forall b :: b in visible && b.comment.id != id ==> b in Filter(visible, OtherThan(id))
  {
    var r := Filter(visible, OtherThan(id));
    forall k | 0 <= k < |r|
      ensures r[k].comment.id != id
    {
      FilterMember(visible, OtherThan(id), r[k]);
    }
    forall b | b in visible && b.comment.id != id
      ensures b in r
    {
      FilterMember(visible, OtherThan(id), b);
    }
  }

  /** The scan's `while` loop: from the cursor, wrapping round, at most
      `n` candidates, stopping at the first that is neither visible nor
      used. */
  method ScanComments(comments: seq<Comment>, visible: seq<Bubble>, used: set<string>, start: nat) returns (r: ScanResult)
    requires start < |comments|
    ensures r == Scan(comments, visible, used, start, 0)
  {
    var n := |comments|;
    var nextIndex := start;
    var loopCount := 0;
    while loopCount < n
      invariant 0 <= loopCount <= n && nextIndex == Wrap(start + loopCount, n)
      invariant Scan(comments, visible, used, start, 0) == Scan(comments, visible, used, start, loopCount)
      decreases n - loopCount
    {
      if Eligible(comments[nextIndex], visible, used) {
        return Found(nextIndex);
      }
      ModNext(nextIndex, n);
      nextIndex := (nextIndex + 1) % n;
      loopCount := loopCount + 1;
    }
    return Exhausted;
  }

  class Bubbles {
    var visible: seq<Bubble>
    var used: set<string>
    var cursor: nat
    var created: nat

    constructor()
      ensures visible == [] && used == {} && cursor == 0 && created == 0
    {
      visible := [];
      used := {};
      cursor := 0;
      created := 0;
    }

    function State(): BubbleState
      reads this
    {
      BubbleState(visible, used, cursor, created)
    }

    /** `addNextComment`, with the scan's `while` loop. */
    method AddNextComment(comments: seq<Comment>, active: bool, maxBubbles: int) returns (o: Outcome)
      modifies this
      ensures StepResult(State(), o) == Step(old(State()), comments, active, maxBubbles)
    {
      ghost var st := State();
      if !active || |comments| == 0 {
        return NoOp;
      }
      var n := |comments|;
      var visibleAtStart, usedAtStart, start := visible, used, cursor;
      if |used| >= n {
        used := {};
        cursor := 0;
      }
      if start >= n {
        // the first candidate is `undefined`, and reading its id throws
        return Faulted;
      }
      var scan := ScanComments(comments, visibleAtStart, usedAtStart, start);
      var nextIndex := 0;
      if scan.Found? {
        nextIndex := scan.index;
      } else {
        // nothing suitable: reset and take the first comment
        used := {};
        cursor := 0;
      }
      ghost var expected := Step(st, comments, active, maxBubbles);
      assert expected.outcome == Added(nextIndex);
      assert used == if |st.used| >= n || scan.Exhausted? then {} else st.used;
      var nextComment := comments[nextIndex];
      var position := GridPosition(created);
      var kept := visible;
      if |kept| >= maxBubbles && |kept| > 0 {
        kept := kept[1..];
      }
      assert kept == Evict(st.visible, maxBubbles);
      visible := kept + [Bubble(nextComment, position)];
      created := created + 1;
      used := used + {nextComment.id};
      cursor := (nextIndex + 1) % n;
      assert State() == expected.state;
      return Added(nextIndex);
    }

    /** The removal timer of a bubble. */
    method RemoveBubble(id: string)
      modifies this
      ensures visible == Filter(old(visible), OtherThan(id))
      ensures used == old(used) && cursor == old(cursor) && created == old(created)
    {
      visible := Filter(visible, OtherThan(id));
    }

    /** The reset effect: inactive, or with no comments, the bubbles, the
        used set and the cursor are cleared; the created counter is kept. */
    method Reset(comments: seq<Comment>, active: bool)
      modifies this
      ensures !active || comments == [] ==> visible == [] && used == {} && cursor == 0
      ensures active && comments != [] ==> visible == old(visible) && used == old(used) && cursor == old(cursor)
      ensures created == old(created)
    {
      if !active || |comments| == 0 {
        visible := [];
        used := {};
        cursor := 0;
      }
    }
  }
}
