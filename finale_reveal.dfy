/** The grand-champion finale of `src/components/FinaleReveal.tsx`: a
    five-step machine (header, bronze, silver, gold, complete) that skips
    the medals nobody won and shows confetti exactly while the gold step is
    on screen. */
module FinaleReveal {
  import opened Wrappers
  import opened Types
  import opened CategoryReveal

  datatype FinaleStep = FHeader | FBronze | FSilver | FGold | FComplete

  /** The effect of a press: a new step together with what happens to the
      confetti flag (`None` leaves it as it was), or the hand-over to the
      deck. */
  datatype FinaleMove = Step(to: FinaleStep, confetti: Option<bool>) | Finish | Return

  /** `handleNext` once the images are loaded. */
  function FinaleNext(s: FinaleStep, m: Medals): FinaleMove {
    match s
    case FHeader =>
      if m.bronze then Step(FBronze, None)
      else if m.silver then Step(FSilver, None)
      else if m.gold then Step(FGold, Some(true))
      else Step(FComplete, None)
    case FBronze =>
      if m.silver then Step(FSilver, None)
      else if m.gold then Step(FGold, Some(true))
      else Step(FComplete, None)
    case FSilver => if m.gold then Step(FGold, Some(true)) else Step(FComplete, None)
    case FGold => Step(FComplete, Some(false))
    case FComplete => Finish
  }

  /** `handlePrevious`. */
  function FinalePrev(s: FinaleStep, m: Medals): FinaleMove {
    match s
    case FHeader => Return
    case FBronze => Step(FHeader, None)
    case FSilver => if m.bronze then Step(FBronze, None) else Step(FHeader, None)
    case FGold =>
      if m.silver then Step(FSilver, Some(false))
      else if m.bronze then Step(FBronze, Some(false))
      else Step(FHeader, Some(false))
    case FComplete =>
      if m.gold then Step(FGold, Some(true))
      else if m.silver then Step(FSilver, None)
      else if m.bronze then Step(FBronze, None)
      else Step(FHeader, None)
  }

  function ApplyConfetti(flag: bool, change: Option<bool>): bool {
    match change
    case Some(b) => b
    case None => flag
  }

  predicate FinaleReachable(s: FinaleStep, m: Medals) {
    match s
    case FHeader => true
    case FBronze => m.bronze
    case FSilver => m.silver
    case FGold => m.gold
    case FComplete => true
  }

  /** The confetti flag is on exactly at the gold step, after any next or
      previous taken from a state where that already held. */
  lemma ConfettiTracksGold(s: FinaleStep, m: Medals, flag: bool)
    requires flag == (s == FGold)
    ensures FinaleNext(s, m).Step? ==>
      ApplyConfetti(flag, FinaleNext(s, m).confetti) == (FinaleNext(s, m).to == FGold)
    ensures FinalePrev(s, m).Step? ==>
      ApplyConfetti(flag, FinalePrev(s, m).confetti) == (FinalePrev(s, m).to == FGold)
  {
  }

  /** Next and previous stay among the reachable steps. */
  lemma FinaleReachableClosed(s: FinaleStep, m: Medals)
    requires FinaleReachable(s, m)
    ensures FinaleNext(s, m).Step? ==> FinaleReachable(FinaleNext(s, m).to, m)
    ensures FinalePrev(s, m).Step? ==> FinaleReachable(FinalePrev(s, m).to, m)
  {
  }

  /** On reachable steps other than complete, previous undoes next; on
      reachable steps other than the header, next undoes previous. */
  lemma FinaleInverses(s: FinaleStep, m: Medals)
    requires FinaleReachable(s, m)
    ensures s != FComplete ==> FinaleNext(s, m).Step? && FinalePrev(FinaleNext(s, m).to, m).to == s
    ensures s != FHeader ==> FinalePrev(s, m).Step? && FinaleNext(FinalePrev(s, m).to, m).to == s
  {
  }

  /** Previous from complete goes to the highest medal that has a winner. */
  lemma CompleteGoesBackToHighest(n: nat)
    ensures FinalePrev(FComplete, MedalsOf(n)).to
         == if n >= 1 then FGold else FHeader
  {
  }

  class FinaleRevealState {
    const winners: seq<Beer>
    var step: FinaleStep
    var imagesLoaded: bool
    var showConfetti: bool
    var loadTarget: nat
    var loadedCount: nat

    /** The confetti flag is on exactly at the gold step. */
    predicate ConfettiInvariant()
      reads this
    {
      showConfetti == (step == FGold)
    }

    constructor(winners: seq<Beer>)
      ensures this.winners == winners && step == FHeader && !imagesLoaded && !showConfetti
      ensures loadTarget == 0 && loadedCount == 0
      ensures ConfettiInvariant()
    {
      this.winners := winners;
      step := FHeader;
      imagesLoaded := false;
      showConfetti := false;
      loadTarget := 0;
      loadedCount := 0;
    }

    function Medals(): Medals
      reads this
    {
      MedalsOf(|winners|)
    }

    /** `handleNext`: refused while the images load. */
    method HandleNext() returns (signal: Signal)
      modifies this
      ensures imagesLoaded == old(imagesLoaded) && loadTarget == old(loadTarget) && loadedCount == old(loadedCount)
      ensures !old(imagesLoaded) ==> step == old(step) && showConfetti == old(showConfetti) && signal == NoSignal
      ensures old(imagesLoaded) ==> match FinaleNext(old(step), Medals())
        case Step(t, c) => step == t && showConfetti == ApplyConfetti(old(showConfetti), c) && signal == NoSignal
        case Finish => step == old(step) && showConfetti == old(showConfetti) && signal == Completed
        case Return => false
      ensures old(ConfettiInvariant()) ==> ConfettiInvariant()
    {
      signal := NoSignal;
      if !imagesLoaded {
        return;
      }
      var m := Medals();
      match step
      case FHeader =>
        if m.bronze {
          step := FBronze;
        } else if m.silver {
          step := FSilver;
        } else if m.gold {
          step := FGold;
          showConfetti := true;
        } else {
          step := FComplete;
        }
      case FBronze =>
        if m.silver {
          step := FSilver;
        } else if m.gold {
          step := FGold;
          showConfetti := true;
        } else {
          step := FComplete;
        }
      case FSilver =>
        if m.gold {
          step := FGold;
          showConfetti := true;
        } else {
          step := FComplete;
        }
      case FGold =>
        step := FComplete;
        showConfetti := false;
      case FComplete =>
        signal := Completed;
    }

    /** `handlePrevious`: no loading guard. */
    method HandlePrevious() returns (signal: Signal)
      modifies this
      ensures imagesLoaded == old(imagesLoaded) && loadTarget == old(loadTarget) && loadedCount == old(loadedCount)
      ensures match FinalePrev(old(step), Medals())
        case Step(t, c) => step == t && showConfetti == ApplyConfetti(old(showConfetti), c) && signal == NoSignal
        case Return => step == old(step) && showConfetti == old(showConfetti) && signal == WentBack
        case Finish => false
      ensures old(ConfettiInvariant()) ==> ConfettiInvariant()
    {
      signal := NoSignal;
      var m := Medals();
      match step
      case FHeader =>
        signal := WentBack;
      case FBronze =>
        step := FHeader;
      case FSilver =>
        step := if m.bronze then FBronze else FHeader;
      case FGold =>
        showConfetti := false;
        step := if m.silver then FSilver else if m.bronze then FBronze else FHeader;
      case FComplete =>
        if m.gold {
          step := FGold;
          showConfetti := true;
        } else {
          step := if m.silver then FSilver else if m.bronze then FBronze else FHeader;
        }
    }

    /** The preload effect, as in the category reveal. */
    method StartPreload(active: bool)
      modifies this
      ensures step == old(step) && showConfetti == old(showConfetti)
      ensures !active || old(imagesLoaded) ==>
        imagesLoaded == old(imagesLoaded) && loadTarget == old(loadTarget) && loadedCount == old(loadedCount)
      ensures active && !old(imagesLoaded) ==>
        && loadTarget == |WithImages(winners)| && loadedCount == 0
        && (imagesLoaded <==> loadTarget == 0)
    {
      if !active || imagesLoaded {
        return;
      }
      var count := |WithImages(winners)|;
      loadTarget := count;
      loadedCount := 0;
      if count == 0 {
        imagesLoaded := true;
      }
    }

    method OnImageSettled()
      modifies this
      ensures step == old(step) && showConfetti == old(showConfetti) && loadTarget == old(loadTarget)
      ensures loadedCount == old(loadedCount) + 1
      ensures imagesLoaded == (old(imagesLoaded) || loadedCount == loadTarget)
    {
      loadedCount := loadedCount + 1;
      if loadedCount == loadTarget {
        imagesLoaded := true;
      }
    }
  }
}
