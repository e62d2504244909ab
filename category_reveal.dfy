/** The per-category reveal of `src/components/CategoryReveal.tsx`: an
    eight-step machine that shows the podium and then the bronze, silver
    and gold winners, each first as a hero card and then docked, skipping
    the medals that nobody won. Advancing waits until the winners' label
    images have all loaded or failed. */
module CategoryReveal {
  import opened Types
  import opened Text

  datatype RevealStep =
    | Header | PodiumEnter
    | BronzeHero | BronzeDock | SilverHero | SilverDock | GoldHero | GoldDock

  /** Which medals have a winner. The gold, silver and bronze entries are
      `winners[0]`, `winners[1]` and `winners[2]`; an entry is an object,
      hence truthy, whenever it exists. */
  datatype Medals = Medals(gold: bool, silver: bool, bronze: bool)

  function MedalsOf(winnerCount: nat): (m: Medals)
    ensures m.gold <==> winnerCount >= 1
    ensures m.silver <==> winnerCount >= 2
    ensures m.bronze <==> winnerCount >= 3
    ensures m.bronze ==> m.silver && m.silver ==> m.gold
  {
    Medals(winnerCount >= 1, winnerCount >= 2, winnerCount >= 3)
  }

  /** What a press does: move to a step, or hand control to the deck. */
  datatype Move = GoTo(step: RevealStep) | Complete | Back

  /** `handleNext` once the images are loaded. */
  function NextMove(s: RevealStep, m: Medals): Move {
    match s
    case Header => GoTo(PodiumEnter)
    case PodiumEnter =>
      if m.bronze then GoTo(BronzeHero)
      else if m.silver then GoTo(SilverHero)
      else if m.gold then GoTo(GoldHero)
      else Complete
    case BronzeHero => GoTo(BronzeDock)
    case BronzeDock =>
      if m.silver then GoTo(SilverHero) else if m.gold then GoTo(GoldHero) else Complete
    case SilverHero => GoTo(SilverDock)
    case SilverDock => if m.gold then GoTo(GoldHero) else Complete
    case GoldHero => GoTo(GoldDock)
    case GoldDock => Complete
  }

  /** `handlePrevious`. */
  function PrevMove(s: RevealStep, m: Medals): Move {
    match s
    case Header => Back
    case PodiumEnter => GoTo(Header)
    case BronzeHero => GoTo(PodiumEnter)
    case BronzeDock => GoTo(BronzeHero)
    case SilverHero => if m.bronze then GoTo(BronzeDock) else GoTo(PodiumEnter)
    case SilverDock => GoTo(SilverHero)
    case GoldHero =>
      if m.silver then GoTo(SilverDock) else if m.bronze then GoTo(BronzeDock) else GoTo(PodiumEnter)
    case GoldDock => GoTo(GoldHero)
  }

  /** The steps of a medal that has a winner, and the two opening steps. */
  predicate Reachable(s: RevealStep, m: Medals) {
    match s
    case Header => true
    case PodiumEnter => true
    case BronzeHero => m.bronze
    case BronzeDock => m.bronze
    case SilverHero => m.silver
    case SilverDock => m.silver
    case GoldHero => m.gold
    case GoldDock => m.gold
  }

  /** The walk that pressing next from the header takes. */
  function ForwardPath(m: Medals): (p: seq<RevealStep>)
    ensures |p| >= 2 && p[0] == Header
  {
    [Header, PodiumEnter]
    + (if m.bronze then [BronzeHero, BronzeDock] else [])
    + (if m.silver then [SilverHero, SilverDock] else [])
    + (if m.gold then [GoldHero, GoldDock] else [])
  }

  /** Next and previous never leave the reachable steps. */
  lemma ReachableClosed(s: RevealStep, m: Medals)
    requires Reachable(s, m)
    ensures NextMove(s, m).GoTo? ==> Reachable(NextMove(s, m).step, m)
    ensures PrevMove(s, m).GoTo? ==> Reachable(PrevMove(s, m).step, m)
  {
  }

  /** Previous undoes next, and next undoes previous, on reachable steps. */
  lemma PrevInvertsNext(s: RevealStep, m: Medals)
    requires Reachable(s, m)
    ensures NextMove(s, m).GoTo? ==> PrevMove(NextMove(s, m).step, m) == GoTo(s)
    ensures PrevMove(s, m).GoTo? ==> NextMove(PrevMove(s, m).step, m) == GoTo(s)
  {
  }

  /** Pressing next from the header walks the forward path step by step and
      completes from its last step; the path holds exactly the reachable
      steps, each once. */
  lemma {:induction false} ForwardPathWalk(m: Medals)
    ensures var p := ForwardPath(m);
      && (forall i :: 0 <= i < |p| - 1 ==> NextMove(p[i], m) == GoTo(p[i + 1]))
      && NextMove(p[|p| - 1], m) == Complete
      && (forall s :: Reachable(s, m) <==> s in p)
      && (forall i, j :: 0 <= i < j < |p| ==> p[i] != p[j])
  {
    var p := ForwardPath(m);
    var b := if m.bronze then [BronzeHero, BronzeDock] else [];
    var sv := if m.silver then [SilverHero, SilverDock] else [];
    var g := if m.gold then [GoldHero, GoldDock] else [];
    assert p == [Header, PodiumEnter] + b + sv + g;
    forall i | 0 <= i < |p| - 1 ensures NextMove(p[i], m) == GoTo(p[i + 1]) {
    }
  }

  /** With one winner the reveal is header, podium, gold hero, gold dock. */
  lemma OneWinner()
    ensures ForwardPath(MedalsOf(1)) == [Header, PodiumEnter, GoldHero, GoldDock]
    ensures forall s :: Reachable(s, MedalsOf(1)) <==> s in {Header, PodiumEnter, GoldHero, GoldDock}
  {
  }

  /** With no winners, next from the podium completes at once. */
  lemma NoWinners()
    ensures NextMove(PodiumEnter, MedalsOf(0)) == Complete
    ensures ForwardPath(MedalsOf(0)) == [Header, PodiumEnter]
  {
  }

  // ------------------------------------------------------------ the cards

  datatype CardSize = Hero | Mini | PodiumSize

  datatype CardState = CardState(visible: bool, size: CardSize)

  /** The position of a step in the full eight-step order. */
  function Ordinal(s: RevealStep): nat {
    match s
    case Header => 0
    case PodiumEnter => 1
    case BronzeHero => 2
    case BronzeDock => 3
    case SilverHero => 4
    case SilverDock => 5
    case GoldHero => 6
    case GoldDock => 7
  }

  function BronzeCardState(s: RevealStep): (c: CardState)
    ensures c.visible <==> Ordinal(s) >= Ordinal(BronzeHero)
    ensures c.size == Hero <==> s == BronzeHero
    ensures c.size != PodiumSize
  {
    if s == BronzeHero then CardState(true, Hero)
    else if s in {BronzeDock, SilverHero, SilverDock, GoldHero, GoldDock} then CardState(true, Mini)
    else CardState(false, Mini)
  }

  function SilverCardState(s: RevealStep): (c: CardState)
    ensures c.visible <==> Ordinal(s) >= Ordinal(SilverHero)
    ensures c.size == Hero <==> s == SilverHero
    ensures c.size != PodiumSize
  {
    if s == SilverHero then CardState(true, Hero)
    else if s in {SilverDock, GoldHero, GoldDock} then CardState(true, Mini)
    else CardState(false, Mini)
  }

  function GoldCardState(s: RevealStep): (c: CardState)
    ensures c.visible <==> Ordinal(s) >= Ordinal(GoldHero)
    ensures c.size == Hero <==> s == GoldHero
    ensures c.size != Mini
  {
    if s == GoldHero then CardState(true, Hero)
    else if s == GoldDock then CardState(true, PodiumSize)
    else CardState(false, PodiumSize)
  }

  /** At most one card is hero-sized, and one is exactly at the hero steps. */
  lemma OneHeroAtATime(s: RevealStep)
    ensures var heroes := (if BronzeCardState(s).size == Hero then 1 else 0)
                        + (if SilverCardState(s).size == Hero then 1 else 0)
                        + (if GoldCardState(s).size == Hero then 1 else 0);
      heroes == (if s in {BronzeHero, SilverHero, GoldHero} then 1 else 0)
  {
  }

  // ------------------------------------------------------- the component

  /** The winners that have a label image to preload. */
  function WithImages(winners: seq<Beer>): seq<Beer> {
    Filter(winners, (b: Beer) => Truthy(b.img))
  }

  /** What `handleNext` and `handlePrevious` report to the deck. */
  datatype Signal = NoSignal | Completed | WentBack

  class CategoryRevealState {
    const winners: seq<Beer>
    var step: RevealStep
    var imagesLoaded: bool
    /** The number of images the current preload waits for, and how many
        of them have fired a load or an error. */
    var loadTarget: nat
    var loadedCount: nat

    constructor(winners: seq<Beer>)
      ensures this.winners == winners && step == Header && !imagesLoaded
      ensures loadTarget == 0 && loadedCount == 0
    {
      this.winners := winners;
      step := Header;
      imagesLoaded := false;
      loadTarget := 0;
      loadedCount := 0;
    }

    function Medals(): Medals
      reads this
    {
      MedalsOf(|winners|)
    }

    /** `handleNext`: refused while the images load; otherwise the step
        moves as `NextMove` says, or the reveal completes. */
    method HandleNext() returns (signal: Signal)
      modifies this
      ensures imagesLoaded == old(imagesLoaded) && loadTarget == old(loadTarget) && loadedCount == old(loadedCount)
      ensures !old(imagesLoaded) ==> step == old(step) && signal == NoSignal
      ensures old(imagesLoaded) ==> match NextMove(old(step), Medals())
        case GoTo(t) => step == t && signal == NoSignal
        case Complete => step == old(step) && signal == Completed
        case Back => false
    {
      signal := NoSignal;
      if !imagesLoaded {
        return;
      }
      var m := Medals();
      match step
      case Header => step := PodiumEnter;
      case PodiumEnter =>
        if m.bronze {
          step := BronzeHero;
        } else if m.silver {
          step := SilverHero;
        } else if m.gold {
          step := GoldHero;
        } else {
          signal := Completed;
        }
      case BronzeHero => step := BronzeDock;
      case BronzeDock =>
        if m.silver {
          step := SilverHero;
        } else if m.gold {
          step := GoldHero;
        } else {
          signal := Completed;
        }
      case SilverHero => step := SilverDock;
      case SilverDock =>
        if m.gold {
          step := GoldHero;
        } else {
          signal := Completed;
        }
      case GoldHero => step := GoldDock;
      case GoldDock => signal := Completed;
    }

    /** `handlePrevious`: no loading guard. */
    method HandlePrevious() returns (signal: Signal)
      modifies this
      ensures imagesLoaded == old(imagesLoaded) && loadTarget == old(loadTarget) && loadedCount == old(loadedCount)
      ensures match PrevMove(old(step), Medals())
        case GoTo(t) => step == t && signal == NoSignal
        case Back => step == old(step) && signal == WentBack
        case Complete => false
    {
      signal := NoSignal;
      var m := Medals();
      match step
      case Header => signal := WentBack;
      case PodiumEnter => step := Header;
      case BronzeHero => step := PodiumEnter;
      case BronzeDock => step := BronzeHero;
      case SilverHero => step := if m.bronze then BronzeDock else PodiumEnter;
      case SilverDock => step := SilverHero;
      case GoldHero =>
        step := if m.silver then SilverDock else if m.bronze then BronzeDock else PodiumEnter;
      case GoldDock => step := GoldHero;
    }

    /** The preload effect: when active and not yet loaded, it starts
        counting the winners' images, or declares the images loaded at once
        when there are none. */
    method StartPreload(active: bool)
      modifies this
      ensures step == old(step)
      ensures !active || old(imagesLoaded) ==>
        imagesLoaded == old(imagesLoaded) && loadTarget == old(loadTarget) && loadedCount == old(loadedCount)
      ensures active && !old(imagesLoaded) ==>
        && loadTarget == |WithImages(winners)| && loadedCount == 0
        && (imagesLoaded <==> loadTarget == 0)
    {
      if !active || imagesLoaded {
        return;
      }
      var count := |WithImages(winners)|;
      loadTarget := count;
      loadedCount := 0;
      if count == 0 {
        imagesLoaded := true;
      }
    }

    /** An image of the current preload fired its load or its error event. */
    method OnImageSettled()
      modifies this
      ensures step == old(step) && loadTarget == old(loadTarget)
      ensures loadedCount == old(loadedCount) + 1
      ensures imagesLoaded == (old(imagesLoaded) || loadedCount == loadTarget)
    {
      loadedCount := loadedCount + 1;
      if loadedCount == loadTarget {
        imagesLoaded := true;
      }
    }
  }

  /** Once every image of a preload has settled, by load or by error, the
      images count as loaded; before that, next is refused. */
  method PreloadThenSettleAll(r: CategoryRevealState)
    modifies r
    ensures r.imagesLoaded
    ensures r.step == old(r.step)
  {
    r.StartPreload(true);
    if r.imagesLoaded {
      return;
    }
    while r.loadedCount < r.loadTarget
      invariant r.loadedCount <= r.loadTarget
      invariant r.imagesLoaded || r.loadedCount < r.loadTarget
      invariant r.step == old(r.step)
      invariant r.imagesLoaded ==> r.loadedCount == r.loadTarget
      decreases r.loadTarget - r.loadedCount
    {
      r.OnImageSettled();
    }
  }
}
