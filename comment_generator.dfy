/** `generateSampleComments` of `src/utils/commentGenerator.ts`: six stock
    comments for a beer, and a seventh chosen by keywords in its style. */
module CommentGenerator {
  import opened Wrappers
  import opened Types
  import opened Text

  /** `${entryId}-k` for a one-digit `k`. */
  function CommentId(entryId: string, k: nat): string
    requires 1 <= k <= 9
  {
    entryId + "-" + [('0' as int + k) as char]
  }

  function Judge(k: nat): string
    requires 1 <= k <= 3
  {
    "Judge " + [('0' as int + k) as char]
  }

  /** `beer.style || "beer"`. */
  function StyleOrBeer(style: Option<string>): string {
    if Truthy(style) then style.value else "beer"
  }

  function BalanceText(beer: Beer): string {
    "Great " + StyleOrBeer(beer.style) + " with excellent balance"
  }

  const AromaText := "Beautiful color and aroma"

  function FinishText(beer: Beer): string {
    TemplateText(beer.name) + " has a wonderful finish"
  }

  /** The stock comments, in order. */
  function BaseComments(beer: Beer): seq<Comment> {
    [ Comment(CommentId(beer.entryId, 1), BalanceText(beer), Some(Judge(1))),
      Comment(CommentId(beer.entryId, 2), AromaText, Some(Judge(2))),
      Comment(CommentId(beer.entryId, 3), FinishText(beer), Some(Judge(3))),
      Comment(CommentId(beer.entryId, 4), BalanceText(beer), Some(Judge(1))),
      Comment(CommentId(beer.entryId, 5), AromaText, Some(Judge(2))),
      Comment(CommentId(beer.entryId, 6), FinishText(beer), Some(Judge(3))) ]
  }

  /** The text and author of the style comment, if the lowercased style
      names one of the keyword families; "ipa" wins over "stout"/"porter",
      which win over "wheat"/"weiss". */
  function StyleExtra(style: Option<string>): Option<(string, string)> {
    if !Truthy(style) then None
    else
      var styleLower := ToLower(style.value);
      if Contains(styleLower, "ipa") then Some(("Bold hop character with citrus notes", Judge(1)))
      else if Contains(styleLower, "stout") || Contains(styleLower, "porter") then
        Some(("Rich roasted malt flavors with coffee undertones", Judge(2)))
      else if Contains(styleLower, "wheat") || Contains(styleLower, "weiss") then
        Some(("Refreshing with classic wheat characteristics", Judge(3)))
      else None
  }

  /** `generateSampleComments`: the stock comments, then the style comment
      when there is one. */
  function SampleComments(beer: Beer): (r: seq<Comment>)
    ensures |r| == if StyleExtra(beer.style).Some? then 7 else 6
    ensures r[..6] == BaseComments(beer)
    ensures forall k :: 0 <= k < |r| ==> r[k].id == CommentId(beer.entryId, k + 1)
  {
    var base := BaseComments(beer);
    match StyleExtra(beer.style)
    case None => base
    case Some(extra) =>
      assert (base + [Comment(CommentId(beer.entryId, 7), extra.0, Some(extra.1))])[..6] == base;
      base + [Comment(CommentId(beer.entryId, 7), extra.0, Some(extra.1))]
  }

  /** No two comments of a beer share an id: the ids end in different
      digits. */
  lemma DistinctIds(beer: Beer)
    ensures var r := SampleComments(beer);
      forall i, j :: 0 <= i < j < |r| ==> r[i].id != r[j].id
  {
    var r := SampleComments(beer);
    forall i, j | 0 <= i < j < |r|
      ensures r[i].id != r[j].id
    {
      var a, b := r[i].id, r[j].id;
      assert a[|a| - 1] == ('0' as int + i + 1) as char;
      assert b[|b| - 1] == ('0' as int + j + 1) as char;
    }
  }

  /** The stock authors cycle Judge 1, 2, 3; comments 1 and 4 praise the
      style (or "beer" when there is none), comments 3 and 6 name the beer,
      and 2 and 5 are fixed. */
  lemma BaseShape(beer: Beer)
    ensures var r := SampleComments(beer);
      && (forall k :: 0 <= k < 6 ==> r[k].author == Some(Judge(k % 3 + 1)))
      && r[0].text == r[3].text == "Great " + StyleOrBeer(beer.style) + " with excellent balance"
      && r[1].text == r[4].text == "Beautiful color and aroma"
      && r[2].text == r[5].text == TemplateText(beer.name) + " has a wonderful finish"
      && (!Truthy(beer.style) ==> StyleOrBeer(beer.style) == "beer")
  {
    var r := SampleComments(beer);
    assert r[..6] == BaseComments(beer);
    assert forall k :: 0 <= k < 6 ==> r[k] == BaseComments(beer)[k];
  }

  /** The lowercased style, empty when there is none. */
  function LowerStyle(style: Option<string>): string {
    match style
    case Some(v) => ToLower(v)
    case None => ""
  }

  predicate AnyKeyword(s: string) {
    Contains(s, "ipa") || Contains(s, "stout") || Contains(s, "porter") || Contains(s, "wheat") || Contains(s, "weiss")
  }

  /** A seventh comment exists exactly when the style is non-empty and its
      lowercase form contains one of the keywords; its author says which
      family matched first. */
  lemma SeventhComment(beer: Beer)
    ensures var r := SampleComments(beer);
      && (|r| == 7 <==> Truthy(beer.style) && AnyKeyword(LowerStyle(beer.style)))
      && (|r| == 7 ==>
            && r[6].id == CommentId(beer.entryId, 7)
            && (r[6].author == Some(Judge(1)) <==> Contains(LowerStyle(beer.style), "ipa"))
            && (r[6].author == Some(Judge(2)) <==>
                  !Contains(LowerStyle(beer.style), "ipa")
                  && (Contains(LowerStyle(beer.style), "stout") || Contains(LowerStyle(beer.style), "porter"))))
  {
    assert Judge(1) != Judge(2) && Judge(1) != Judge(3) && Judge(2) != Judge(3) by {
      assert Judge(1)[6] == '1' && Judge(2)[6] == '2' && Judge(3)[6] == '3';
    }
  }

  /** Matching ignores ASCII case: a style with "IPA" in it gets the hop
      comment. */
  lemma UpperCaseIpa(beer: Beer, i: nat)
    requires beer.style.Some? && i + 3 <= |beer.style.value| && beer.style.value[i..i + 3] == "IPA"
    ensures |SampleComments(beer)| == 7
    ensures SampleComments(beer)[6].text == "Bold hop character with citrus notes"
  {
    var v := beer.style.value;
    var s := ToLower(v);
    assert v[i] == 'I' && v[i + 1] == 'P' && v[i + 2] == 'A';
    assert s[i..][..3] == "ipa";
    assert StartsWith(s[i..], "ipa");
    ContainsAt(s, "ipa");
  }
}
