/** The slide list of `src/components/LabelCarousel.tsx`: Drive sharing
    links turned into `uc?export=view` addresses, the choice between the
    static Drive images and the beers' own images, and the de-duplication
    of slides by address. */
module LabelCarousel {
  import opened Wrappers
  import opened Types
  import opened Text
  import opened Pattern
  import Drive

  const UcPrefix := "https://drive.google.com/uc?export=view&id="

  /** The id a sharing link names: the `id` parameter, else the `/file/d/`
      segment (the third pattern is the `id` parameter again). */
  function ShareId(url: string): Option<string> {
    Drive.OrElse(Drive.OrElse(FirstMatch(Drive.IdParam, url), FirstMatch(Drive.FilePattern, url)),
                 FirstMatch(Drive.IdParam, url))
  }

  /** `driveShareToDirect`: `null` for a missing or empty link, the link
      itself when it names no id, else the `uc?export=view` address. */
  function DriveShareToDirect(url: Option<string>): Option<string> {
    if !Truthy(url) then None
    else match ShareId(url.value)
      case None => Some(url.value)
      case Some(id) => Some(UcPrefix + id)
  }

  /** The three outcomes, with the `id` parameter taking precedence over
      the `/file/d/` segment; a link that yields an address yields a
      non-empty one. */
  lemma DriveShareToDirectSpec(url: Option<string>)
    ensures DriveShareToDirect(url).None? <==> !Truthy(url)
    ensures Truthy(url) && FirstMatch(Drive.IdParam, url.value).Some? ==>
      DriveShareToDirect(url) == Some(UcPrefix + FirstMatch(Drive.IdParam, url.value).value)
    ensures Truthy(url) && FirstMatch(Drive.IdParam, url.value).None? && FirstMatch(Drive.FilePattern, url.value).Some? ==>
      DriveShareToDirect(url) == Some(UcPrefix + FirstMatch(Drive.FilePattern, url.value).value)
    ensures Truthy(url) && FirstMatch(Drive.IdParam, url.value).None? && FirstMatch(Drive.FilePattern, url.value).None? ==>
      DriveShareToDirect(url) == url
    ensures DriveShareToDirect(url).Some? ==> DriveShareToDirect(url).value != ""
  {
  }

  /** An `open?id=` style link: the id after the first `?id=` or `&id=` is
      carried over to the direct address. */
  lemma OpenLink(base: string, c: char, id: string, tail: string)
    requires '?' !in base && '&' !in base && c in {'?', '&'}
    requires id != [] && '&' !in id && '#' !in id
    requires tail == [] || tail[0] in {'&', '#'}
    ensures DriveShareToDirect(Some(base + ([c] + "id=" + id + tail))) == Some(UcPrefix + id)
  {
    MatchAfter(Drive.IdParam, base, c, id, tail);
  }

  /** A `/file/d/` link without query: the segment is carried over. */
  lemma FileLink(base: string, id: string, tail: string)
    requires '/' !in base && '?' !in base + id + tail && '&' !in base + id + tail
    requires id != [] && '/' !in id
    requires tail == [] || tail[0] == '/'
    ensures DriveShareToDirect(Some(base + ("/" + "file/d/" + id + tail))) == Some(UcPrefix + id)
  {
    var url := base + ("/" + "file/d/" + id + tail);
    forall k | 0 <= k < |url|
      ensures url[k] !in {'?', '&'}
    {
      if k >= |base| + 8 && k < |base| + 8 + |id| {
        assert url[k] == (base + id + tail)[k - 8];
      } else if k >= |base| + 8 + |id| {
        assert url[k] == (base + id + tail)[k - 8];
      } else if k < |base| {
        assert url[k] == (base + id + tail)[k];
      }
    }
    NoLeadNoMatch(Drive.IdParam, url);
    assert "/" + "file/d/" + id + tail == ['/'] + Drive.FilePattern.lead + id + tail;
    MatchAfter(Drive.FilePattern, base, '/', id, tail);
  }

  /** A slide: address, caption and key. */
  datatype Slide = Slide(src: string, alt: string, id: string)

  /** `${b.name}${b.brewer ? ` — ${b.brewer}` : ""}` */
  function Caption(b: Beer): string {
    TemplateText(b.name) + (if Truthy(b.brewer) then " — " + b.brewer.value else "")
  }

  /** `fromBeers`: the beers whose converted image is truthy, in order. */
  function FromBeers(beers: seq<Beer>): (r: seq<Slide>)
    ensures |r| <= |beers|
  {
    if beers == [] then []
    else
      var src := DriveShareToDirect(beers[0].img);
      (if Truthy(src) then [Slide(src.value, Caption(beers[0]), beers[0].entryId)] else [])
        + FromBeers(beers[1..])
  }

  /** A beer gives a slide exactly when it has a non-empty image link, and
      that slide carries the converted link, its caption and its id. */
  lemma {:induction false} FromBeersSpec(beers: seq<Beer>)
    ensures forall x :: x in FromBeers(beers) ==>
      exists b :: b in beers && Truthy(b.img) && x == Slide(DriveShareToDirect(b.img).value, Caption(b), b.entryId)
    ensures forall b :: b in beers && Truthy(b.img) ==>
      Slide(DriveShareToDirect(b.img).value, Caption(b), b.entryId) in FromBeers(beers)
  {
    if beers != [] {
      FromBeersSpec(beers[1..]);
      DriveShareToDirectSpec(beers[0].img);
      forall b | b in beers[1..] && Truthy(b.img) {
        DriveShareToDirectSpec(b.img);
      }
      assert forall b :: b in beers ==> b == beers[0] || b in beers[1..];
    }
  }

  /** `images`: the Drive images when there are any, else `fromBeers`. */
  function Images(beers: seq<Beer>, driveImages: seq<Slide>): seq<Slide> {
    if |driveImages| > 0 then driveImages else FromBeers(beers)
  }

  /** The `filter` with the `seen` set: drop empty and already seen
      addresses, and record each kept one. */
  function Dedup(s: seq<Slide>, seen: set<string>): seq<Slide> {
    if s == [] then []
    else if s[0].src == "" || s[0].src in seen then Dedup(s[1..], seen)
    else [s[0]] + Dedup(s[1..], seen + {s[0].src})
  }

  /** The `slides` memo. */
  method ComputeSlides(beers: seq<Beer>, driveImages: seq<Slide>) returns (slides: seq<Slide>)
    ensures slides == Dedup(Images(beers, driveImages), {})
  {
    var images := if |driveImages| > 0 then driveImages else FromBeers(beers);
    var seen: set<string> := {};
    slides := [];
    var i := 0;
    while i < |images|
      invariant 0 <= i <= |images|
      invariant slides + Dedup(images[i..], seen) == Dedup(images, {})
    {
      assert images[i..][1..] == images[i + 1..];
      var it := images[i];
      if it.src == "" {
      } else if it.src in seen {
      } else {
        seen := seen + {it.src};
        slides := slides + [it];
      }
      i := i + 1;
    }
    assert images[i..] == [];
  }

  /** The kept slides have non-empty, pairwise distinct addresses, none of
      them already seen, and each is taken from the input. */
  lemma {:induction false} DedupUnique(s: seq<Slide>, seen: set<string>)
    ensures forall k :: 0 <= k < |Dedup(s, seen)| ==>
      Dedup(s, seen)[k].src != "" && Dedup(s, seen)[k].src !in seen && Dedup(s, seen)[k] in s
    ensures forall i, j :: 0 <= i < j < |Dedup(s, seen)| ==> Dedup(s, seen)[i].src != Dedup(s, seen)[j].src
  {
    if s != [] {
      var r := Dedup(s, seen);
      assert forall x :: x in s[1..] ==> x in s;
      if s[0].src == "" || s[0].src in seen {
        var t := Dedup(s[1..], seen);
        DedupUnique(s[1..], seen);
        assert r == t;
      } else {
        var seen' := seen + {s[0].src};
        var t := Dedup(s[1..], seen');
        DedupUnique(s[1..], seen');
        assert r == [s[0]] + t;
        forall i, j | 0 <= i < j < |r|
          ensures r[i].src != r[j].src
        {
          assert r[j] == t[j - 1];
          if i > 0 {
            assert r[i] == t[i - 1];
          }
        }
      }
    }
  }

  /** Some slide of `r` has address `src`. */
  predicate HasSrc(r: seq<Slide>, src: string) {
    exists k :: 0 <= k < |r| && r[k].src == src
  }

  /** Every non-empty address of the input that was not already seen
      appears among the kept slides. */
  lemma {:induction false} DedupCovers(s: seq<Slide>, seen: set<string>)
    ensures forall x :: x in s && x.src != "" && x.src !in seen ==> HasSrc(Dedup(s, seen), x.src)
  {
    if s != [] {
      var kept := !(s[0].src == "" || s[0].src in seen);
      var seen' := if kept then seen + {s[0].src} else seen;
      var t := Dedup(s[1..], seen');
      var r := Dedup(s, seen);
      assert r == if kept then [s[0]] + t else t;
      DedupCovers(s[1..], seen');
      forall x | x in s && x.src != "" && x.src !in seen
        ensures HasSrc(r, x.src)
      {
        if x.src == s[0].src {
          assert kept && r[0].src == x.src;
        } else {
          assert x in s[1..] && x.src !in seen';
          assert HasSrc(t, x.src);
          var k :| 0 <= k < |t| && t[k].src == x.src;
          if kept {
            assert r[k + 1].src == x.src;
          } else {
            assert r[k].src == x.src;
          }
        }
      }
    }
  }

  /** The input's position `i` holds the first slide with its address. */
  predicate FirstOfSrc(s: seq<Slide>, i: nat)
    requires i < |s|
  {
    s[i].src != "" && forall j :: 0 <= j < i ==> s[j].src != s[i].src
  }

  /** Reference definition: the slides at positions `i..` that are the
      first with their address, in input order. */
  function Firsts(s: seq<Slide>, i: nat): seq<Slide>
    requires i <= |s|
    decreases |s| - i
  {
    if i == |s| then [] else (if FirstOfSrc(s, i) then [s[i]] else []) + Firsts(s, i + 1)
  }

  /** The non-empty addresses before position `i`. */
  function SeenBefore(s: seq<Slide>, i: nat): set<string>
    requires i <= |s|
  {
    set j | 0 <= j < i && s[j].src != "" :: s[j].src
  }

  /** The de-duplication keeps exactly the first slide of each non-empty
      address, in the order of the input. */
  lemma DedupIsFirsts(s: seq<Slide>)
    ensures Dedup(s, {}) == Firsts(s, 0)
  {
    assert SeenBefore(s, 0) == {};
    DedupFirsts(s, 0);
  }

  lemma {:induction false} DedupFirsts(s: seq<Slide>, i: nat)
    requires i <= |s|
    ensures Dedup(s[i..], SeenBefore(s, i)) == Firsts(s, i)
    decreases |s| - i
  {
    if i < |s| {
      DedupFirsts(s, i + 1);
      assert s[i..][1..] == s[i + 1..];
      if FirstOfSrc(s, i) {
        assert s[i].src !in SeenBefore(s, i);
        assert SeenBefore(s, i + 1) == SeenBefore(s, i) + {s[i].src};
      } else if s[i].src == "" {
        assert SeenBefore(s, i + 1) == SeenBefore(s, i);
      } else {
        var j :| 0 <= j < i && s[j].src == s[i].src;
        assert s[i].src in SeenBefore(s, i);
        assert SeenBefore(s, i + 1) == SeenBefore(s, i);
      }
    }
  }

  /** An empty Drive list falls back to the beers; a non-empty one is used
      alone. */
  lemma ImagesChoice(beers: seq<Beer>, driveImages: seq<Slide>)
    ensures driveImages != [] ==> Images(beers, driveImages) == driveImages
    ensures driveImages == [] ==> Images(beers, driveImages) == FromBeers(beers)
  {
  }
}
