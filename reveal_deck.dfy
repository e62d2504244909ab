/** The top-level section sequencer of `src/components/RevealDeck.tsx`:
    intro, the four category reveals in a fixed order, the grand-champion
    finale and the closing section, addressed through a numeric section
    index. Reaching the closing section marks the reveal as seen. */
module RevealDeck {
  import opened Types
  import opened Text
  import Cookies

  /** The active section. A category section may in principle hold any of
      the five categories; only the first four are ever entered. */
  datatype Section = Intro | Cat(category: Category) | OverallSection | Closing

  /** The category sections in presentation order (Overall is not one). */
  const CategoryOrder: seq<Category> := [Label, Color, Drinkability, Flavor]

  /** `CATEGORY_ORDER.indexOf(c)`, written out case by case;
      `CategoryIndexIsIndexOf` shows the two agree. */
  function CategoryIndex(c: Category): int {
    match c
    case Label => 0
    case Color => 1
    case Drinkability => 2
    case Flavor => 3
    case Overall => -1
  }

  /** `getCurrentSectionIndex`: anything that is neither the intro, one of
      the four ordered categories nor the finale counts as the closing
      section. */
  function SectionIndex(s: Section): (r: nat)
    ensures r <= |CategoryOrder| + 2
  {
    match s
    case Intro => 0
    case Cat(c) => if CategoryIndex(c) >= 0 then 1 + CategoryIndex(c) else |CategoryOrder| + 2
    case OverallSection => |CategoryOrder| + 1
    case Closing => |CategoryOrder| + 2
  }

  /** The section `handleNext` selects; `s` itself when nothing changes. */
  function NextSection(s: Section): Section {
    var i := SectionIndex(s);
    if i == 0 then Cat(CategoryOrder[0])
    else if i <= |CategoryOrder| then
      (if i < |CategoryOrder| then Cat(CategoryOrder[i]) else OverallSection)
    else if i == |CategoryOrder| + 1 then Closing
    else s
  }

  /** The section `handlePrevious` selects; `s` itself at the intro. */
  function PrevSection(s: Section): Section {
    var i := SectionIndex(s);
    if i == 0 then s
    else if i == 1 then Intro
    else if i <= |CategoryOrder| + 1 then Cat(CategoryOrder[i - 2])
    else OverallSection
  }

  /** The sections the deck can actually show. */
  predicate Reachable(s: Section) {
    s != Cat(Overall)
  }

  /** Where each category sits in the order. */
  lemma CategoryPositions()
    ensures IndexOf(CategoryOrder, Label) == 0 && IndexOf(CategoryOrder, Color) == 1
    ensures IndexOf(CategoryOrder, Drinkability) == 2 && IndexOf(CategoryOrder, Flavor) == 3
    ensures Overall !in CategoryOrder
  {
    assert CategoryOrder[0] == Label && CategoryOrder[1] == Color;
    assert CategoryOrder[2] == Drinkability && CategoryOrder[3] == Flavor;
  }

  /** The written-out position is the array's `indexOf`, -1 for Overall. */
  lemma CategoryIndexIsIndexOf(c: Category)
    ensures CategoryIndex(c) == IndexOf(CategoryOrder, c)
    ensures CategoryIndex(c) >= 0 <==> c in CategoryOrder
  {
    CategoryPositions();
  }

  /** Every category but Overall is in the order. */
  lemma InOrder(c: Category)
    requires c != Overall
    ensures c in CategoryOrder
  {
    CategoryPositions();
    match c
    case Label =>
    case Color =>
    case Drinkability =>
    case Flavor =>
  }

  /** The index of each reachable section, and that it tells them apart. */
  lemma IndexValues(s: Section, t: Section)
    ensures SectionIndex(Intro) == 0 && SectionIndex(OverallSection) == 5 && SectionIndex(Closing) == 6
    ensures forall i :: 0 <= i < |CategoryOrder| ==> SectionIndex(Cat(CategoryOrder[i])) == 1 + i
    ensures Reachable(s) && Reachable(t) && SectionIndex(s) == SectionIndex(t) ==> s == t
  {
    CategoryPositions();
    if s.Cat? && s.category != Overall {
      InOrder(s.category);
    }
    if t.Cat? && t.category != Overall {
      InOrder(t.category);
    }
  }

  /** Next and previous never leave the reachable sections. */
  lemma ReachableClosed(s: Section)
    requires Reachable(s)
    ensures Reachable(NextSection(s)) && Reachable(PrevSection(s))
  {
  }

  /** Next moves one section forward and stays at closing; previous moves
      one section back and stays at the intro. */
  lemma StepIndex(s: Section)
    requires Reachable(s)
    ensures SectionIndex(NextSection(s)) == if SectionIndex(s) == 6 then 6 else SectionIndex(s) + 1
    ensures SectionIndex(PrevSection(s)) == if SectionIndex(s) == 0 then 0 else SectionIndex(s) - 1
    ensures NextSection(Closing) == Closing && PrevSection(Intro) == Intro
    ensures PrevSection(Closing) == OverallSection && PrevSection(OverallSection) == Cat(Flavor)
  {
    CategoryPositions();
    if s.Cat? {
      InOrder(s.category);
    }
  }

  /** Previous undoes next everywhere but at closing, and next undoes
      previous everywhere but at the intro. */
  lemma Inverses(s: Section)
    requires Reachable(s)
    ensures s != Closing ==> PrevSection(NextSection(s)) == s
    ensures s != Intro ==> NextSection(PrevSection(s)) == s
  {
    CategoryPositions();
    match s
    case Cat(c) =>
      if c == Label {
      } else if c == Color {
      } else if c == Drinkability {
      } else {
        assert c == Flavor;
      }
    case _ =>
  }

  /** The section after `k` presses of next. */
  function Forward(s: Section, k: nat): Section
    decreases k
  {
    if k == 0 then s else Forward(NextSection(s), k - 1)
  }

  /** `k` presses of next from a reachable section advance the index by
      `k`, stopping at closing. */
  lemma {:induction false} ForwardIndex(s: Section, k: nat)
    requires Reachable(s)
    ensures Reachable(Forward(s, k))
    ensures SectionIndex(Forward(s, k)) == if SectionIndex(s) + k >= 6 then 6 else SectionIndex(s) + k
    decreases k
  {
    if k > 0 {
      var prev := Forward(s, k - 1);
      ForwardIndex(s, k - 1);
      ForwardNext(s, k - 1);
      StepIndex(prev);
      ReachableClosed(prev);
    }
  }

  /** From the intro, next walks Label, Color, Drinkability, Flavor, the
      finale and closing, and then stays at closing; the Overall category
      is never entered. */
  lemma ForwardWalk(k: nat)
    ensures Forward(Intro, 1) == Cat(Label) && Forward(Intro, 2) == Cat(Color)
    ensures Forward(Intro, 3) == Cat(Drinkability) && Forward(Intro, 4) == Cat(Flavor)
    ensures Forward(Intro, 5) == OverallSection
    ensures k >= 6 ==> Forward(Intro, k) == Closing
    ensures Forward(Intro, k) != Cat(Overall)
  {
    ForwardIndex(Intro, k);
    IndexValues(Forward(Intro, k), Closing);
  }

  class Deck {
    var active: Section

    /** The deck opens on the intro. */
    constructor()
      ensures active == Intro
    {
      active := Intro;
    }

    /** `getCurrentSectionIndex`. */
    function CurrentSectionIndex(): (r: nat)
      reads this
      ensures r <= |CategoryOrder| + 2
      ensures r == 0 <==> active == Intro
    {
      SectionIndex(active)
    }

    /** `handleNext`. */
    method HandleNext()
      modifies this
      ensures active == NextSection(old(active))
    {
      var currentIndex := SectionIndex(active);
      if currentIndex == 0 {
        active := Cat(CategoryOrder[0]);
      } else if currentIndex <= |CategoryOrder| {
        var nextCategoryIndex := currentIndex;
        if nextCategoryIndex < |CategoryOrder| {
          active := Cat(CategoryOrder[nextCategoryIndex]);
        } else {
          active := OverallSection;
        }
      } else if currentIndex == |CategoryOrder| + 1 {
        active := Closing;
      }
    }

    /** `handlePrevious`. */
    method HandlePrevious()
      modifies this
      ensures active == PrevSection(old(active))
    {
      var currentIndex := SectionIndex(active);
      if currentIndex == 0 {
        return;
      } else if currentIndex == 1 {
        active := Intro;
      } else if currentIndex <= |CategoryOrder| + 1 {
        var prevCategoryIndex := currentIndex - 1 - 1;
        active := Cat(CategoryOrder[prevCategoryIndex]);
      } else {
        active := OverallSection;
      }
    }

    /** The closing section's animation-complete callback: the reveal is
        marked as seen only when the closing section is active. `expires`
        is the date text of the cookie's expiry. */
    method OnAnimationComplete(jar: Cookies.CookieJar, expires: string)
      modifies jar
      ensures active == Closing ==>
        jar.cookie == Cookies.SetCookieText(Cookies.RevealCookieName, "true", expires) && Cookies.SeenReveal(jar.cookie)
      ensures active != Closing ==> jar.cookie == old(jar.cookie)
    {
      if active == Closing {
        jar.MarkRevealAsSeen(expires);
      }
    }
  }

  /** A run of presses on a fresh deck keeps it on reachable sections and
      reaches closing no earlier than the sixth next. */
  method PressNext(d: Deck, k: nat)
    requires d.active == Intro
    modifies d
    ensures d.active == Forward(Intro, k)
    ensures (d.active == Closing) == (k >= 6)
  {
    var i := 0;
    while i < k
      invariant 0 <= i <= k
      invariant d.active == Forward(Intro, i)
    {
      ForwardNext(Intro, i);
      d.HandleNext();
      i := i + 1;
    }
    ForwardIndex(Intro, k);
    IndexValues(d.active, Closing);
  }

  /** One more press after `k` presses. */
  lemma {:induction false} ForwardNext(s: Section, k: nat)
    ensures Forward(s, k + 1) == NextSection(Forward(s, k))
    decreases k
  {
    if k > 0 {
      ForwardNext(NextSection(s), k - 1);
    }
  }
}
