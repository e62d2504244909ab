/** The image element of `src/components/DriveImage.tsx`: five candidate
    addresses for one Drive file, tried in order, moving to the next one
    each time the image fails to load and staying on the last. */
module DriveImage {
  import opened Text
  import Drive
  import Pattern

  /** The text around the id in each candidate, in the order tried: the
      Google user-content address (sized, then under `u/0`, then unsized),
      the `uc?export=view` address and the thumbnail address. */
  const Shapes: seq<(string, string)> := [
    (Drive.DirectPrefix, Drive.DirectSuffix),
    ("https://lh3.googleusercontent.com/u/0/d/", "=w1200"),
    (Drive.DirectPrefix, ""),
    ("https://drive.google.com/uc?export=view&id=", ""),
    ("https://drive.google.com/thumbnail?authuser=0&sz=w1200&id=", "")]

  /** `buildCandidates`. */
  function BuildCandidates(idOrUrl: string): (urls: seq<string>)
    ensures |urls| == |Shapes| == 5
  {
    var id := Drive.ExtractDriveFileId(idOrUrl);
    seq(|Shapes|, i requires 0 <= i < |Shapes| => Shapes[i].0 + id + Shapes[i].1)
  }

  /** Every candidate names the file id, and the first one is the direct
      image address the Drive helpers build whenever they agree on the id. */
  lemma CandidatesSpec(idOrUrl: string)
    ensures forall i :: 0 <= i < 5 ==> Contains(BuildCandidates(idOrUrl)[i], Drive.ExtractDriveFileId(idOrUrl))
    ensures BuildCandidates(idOrUrl)[0] == Drive.DirectPrefix + Drive.ExtractDriveFileId(idOrUrl) + Drive.DirectSuffix
    ensures Pattern.UcMatch(idOrUrl).None? ==> BuildCandidates(idOrUrl)[0] == Drive.ToDirectImageUrl(idOrUrl)
  {
    var id := Drive.ExtractDriveFileId(idOrUrl);
    forall i | 0 <= i < 5
      ensures Contains(BuildCandidates(idOrUrl)[i], id)
    {
      ContainsInfix(Shapes[i].0, id, Shapes[i].1);
    }
    if Pattern.UcMatch(idOrUrl).None? {
      Drive.DirectUsesFileId(idOrUrl);
    }
  }

  /** The `onError` update: the next candidate, or the same one at the
      last. */
  function Advance(i: nat, n: nat): (j: nat)
    ensures i < n ==> i <= j < n
    ensures j == i || j == i + 1
    ensures j == i + 1 <==> i + 1 < n
  {
    if i + 1 < n then i + 1 else i
  }

  /** The index after `k` failures from `i`. */
  lemma {:induction false} AdvanceRepeated(i: nat, n: nat, k: nat)
    requires i < n
    ensures AdvanceTimes(i, n, k) == if i + k < n then i + k else n - 1
    decreases k
  {
    if k > 0 {
      AdvanceRepeated(Advance(i, n), n, k - 1);
    }
  }

  function AdvanceTimes(i: nat, n: nat, k: nat): nat
    decreases k
  {
    if k == 0 then i else AdvanceTimes(Advance(i, n), n, k - 1)
  }

  class ImageState {
    var driveIdOrUrl: string
    var urls: seq<string>
    var idx: nat

    ghost predicate Valid()
      reads this
    {
      urls == BuildCandidates(driveIdOrUrl) && idx < |urls|
    }

    /** The element mounts on the first candidate. */
    constructor(driveIdOrUrl: string)
      ensures Valid() && this.driveIdOrUrl == driveIdOrUrl && idx == 0
    {
      this.driveIdOrUrl := driveIdOrUrl;
      urls := BuildCandidates(driveIdOrUrl);
      idx := 0;
    }

    /** The `src` shown. */
    function Src(): string
      requires Valid()
      reads this
    {
      urls[idx]
    }

    /** `onError`. */
    method OnError()
      requires Valid()
      modifies this
      ensures Valid() && driveIdOrUrl == old(driveIdOrUrl)
      ensures idx == Advance(old(idx), |urls|)
    {
      idx := if idx + 1 < |urls| then idx + 1 else idx;
    }

    /** A new `driveIdOrUrl`: the memo rebuilds the candidates, and the
        index state is kept. */
    method SetSource(driveIdOrUrl: string)
      requires Valid()
      modifies this
      ensures Valid() && this.driveIdOrUrl == driveIdOrUrl && idx == old(idx)
    {
      this.driveIdOrUrl := driveIdOrUrl;
      urls := BuildCandidates(driveIdOrUrl);
    }
  }

  /** `k` load failures move the index forward one at a time, never back,
      and leave it on the last candidate once they run out. */
  method FailRepeatedly(img: ImageState, k: nat)
    requires img.Valid()
    modifies img
    ensures img.Valid() && img.driveIdOrUrl == old(img.driveIdOrUrl)
    ensures old(img.idx) <= img.idx
    ensures img.idx == if old(img.idx) + k < 5 then old(img.idx) + k else 4
  {
    ghost var start := img.idx;
    var i := 0;
    while i < k
      invariant 0 <= i <= k
      invariant img.Valid() && img.driveIdOrUrl == old(img.driveIdOrUrl)
      invariant img.idx == AdvanceTimes(start, 5, i)
    {
      AdvanceLast(start, 5, i);
      img.OnError();
      i := i + 1;
    }
    AdvanceRepeated(start, 5, k);
  }

  /** One more failure after `k`. */
  lemma {:induction false} AdvanceLast(i: nat, n: nat, k: nat)
    ensures AdvanceTimes(i, n, k + 1) == Advance(AdvanceTimes(i, n, k), n)
    decreases k
  {
    if k > 0 {
      AdvanceLast(Advance(i, n), n, k - 1);
    }
  }
}
