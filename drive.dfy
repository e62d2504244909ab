/** The Drive link helpers of `src/data/drive.ts`: pulling a folder id, a
    file id and a resource key out of a sharing link, and the direct image
    address built from a file id. */
module Drive {
  import opened Wrappers
  import opened Text
  import opened Pattern

  /** `/\/folders\/([^/?#]+)/` */
  const FolderPattern := Simple({'/'}, "folders/", {'/', '?', '#'})
  /** `/[?&]id=([^&#]+)/` */
  const IdParam := Simple({'?', '&'}, "id=", IdStop)
  /** `/\/file\/d\/([^/]+)/` */
  const FilePattern := Simple({'/'}, "file/d/", {'/'})
  /** `/[?&]resourcekey=([^&#]+)/` */
  const ResourceKeyParam := Simple({'?', '&'}, "resourcekey=", IdStop)

  /** `a || b` on captures that may be missing: a capture is never empty,
      so the first present one wins. */
  function OrElse(a: Option<string>, b: Option<string>): Option<string> {
    if a.Some? then a else b
  }

  /** `extractDriveId`: the folder segment, else the `id` parameter. */
  function ExtractDriveId(url: string): Option<string> {
    OrElse(FirstMatch(FolderPattern, url), FirstMatch(IdParam, url))
  }

  /** A folder segment wins over an `id` parameter; there is an id exactly
      when one of the two patterns matches; it is never empty. */
  lemma ExtractDriveIdSpec(url: string)
    ensures FirstMatch(FolderPattern, url).Some? ==> ExtractDriveId(url) == FirstMatch(FolderPattern, url)
    ensures ExtractDriveId(url).None? <==>
      (forall i :: 0 <= i < |url| ==> !MatchesAt(FolderPattern, url, i) && !MatchesAt(IdParam, url, i))
    ensures ExtractDriveId(url).Some? ==> ExtractDriveId(url).value != []
    ensures FirstMatch(FolderPattern, url).None? ==> ExtractDriveId(url) == FirstMatch(IdParam, url)
    ensures FirstMatch(FolderPattern, url).None? && ExtractDriveId(url).Some? ==>
      exists i :: 0 <= i < |url| && MatchesAt(IdParam, url, i) && ExtractDriveId(url).value == CaptureAt(IdParam, url, i)
        && forall j :: 0 <= j < i ==> !MatchesAt(IdParam, url, j)
  {
    FirstMatchSpec(FolderPattern, url, 0);
    FirstMatchSpec(IdParam, url, 0);
  }

  /** A folder link's id reads back: it ends at `/`, `?`, `#` or the end. */
  lemma FolderRoundTrip(id: string, tail: string)
    requires id != [] && '/' !in id && '?' !in id && '#' !in id
    requires tail == [] || tail[0] in {'/', '?', '#'}
    ensures ExtractDriveId("/folders/" + id + tail) == Some(id)
  {
    assert "/folders/" + id + tail == ['/'] + FolderPattern.lead + id + tail;
    MatchAtStart(FolderPattern, '/', id, tail);
  }

  /** The id `toDirectImageUrl` uses: the `/file/d/` segment, else the `id`
      parameter, else the whole input, trimmed. */
  function DirectId(fileIdOrUrl: string): string {
    var m := OrElse(FirstMatch(FilePattern, fileIdOrUrl), FirstMatch(IdParam, fileIdOrUrl));
    Trim(if m.Some? then m.value else fileIdOrUrl)
  }

  const DirectPrefix := "https://lh3.googleusercontent.com/d/"
  const DirectSuffix := "=w1200"

  /** `toDirectImageUrl`: the sized address of the `/file/d/` segment, else
      of the `id` parameter, else of the whole input, trimmed. */
  function ToDirectImageUrl(fileIdOrUrl: string): (r: string)
    ensures |r| >= |DirectPrefix| + |DirectSuffix|
    ensures StartsWith(r, DirectPrefix) && r[|r| - |DirectSuffix|..] == DirectSuffix
    ensures FirstMatch(FilePattern, fileIdOrUrl).Some? ==>
      r == DirectPrefix + Trim(FirstMatch(FilePattern, fileIdOrUrl).value) + DirectSuffix
    ensures FirstMatch(FilePattern, fileIdOrUrl).None? && FirstMatch(IdParam, fileIdOrUrl).Some? ==>
      r == DirectPrefix + Trim(FirstMatch(IdParam, fileIdOrUrl).value) + DirectSuffix
    ensures FirstMatch(FilePattern, fileIdOrUrl).None? && FirstMatch(IdParam, fileIdOrUrl).None? ==>
      r == DirectPrefix + Trim(fileIdOrUrl) + DirectSuffix
  {
    var r := DirectPrefix + DirectId(fileIdOrUrl) + DirectSuffix;
    assert r[..|DirectPrefix|] == DirectPrefix;
    assert r[|r| - |DirectSuffix|..] == DirectSuffix;
    r
  }

  /** `extractDriveFileId`: the `/file/d/` segment, else the `id`
      parameter, else the `uc?…id=` capture, else the input, trimmed. */
  function ExtractDriveFileId(urlOrId: string): string {
    var m := OrElse(OrElse(FirstMatch(FilePattern, urlOrId), FirstMatch(IdParam, urlOrId)), UcMatch(urlOrId));
    Trim(if m.Some? then m.value else urlOrId)
  }

  /** The order of preference of `extractDriveFileId`: the `/file/d/`
      segment, the `id` parameter, the `uc?…id=` capture, and only then the
      input itself, each trimmed. */
  lemma FileIdPrecedence(s: string)
    ensures FirstMatch(FilePattern, s).Some? ==>
      ExtractDriveFileId(s) == Trim(FirstMatch(FilePattern, s).value)
    ensures FirstMatch(FilePattern, s).None? && FirstMatch(IdParam, s).Some? ==>
      ExtractDriveFileId(s) == Trim(FirstMatch(IdParam, s).value)
    ensures FirstMatch(FilePattern, s).None? && FirstMatch(IdParam, s).None? && UcMatch(s).Some? ==>
      ExtractDriveFileId(s) == Trim(UcMatch(s).value)
    ensures FirstMatch(FilePattern, s).None? && FirstMatch(IdParam, s).None? && UcMatch(s).None? ==>
      ExtractDriveFileId(s) == Trim(s)
  {
  }

  /** A bare id (no `/`, `?` or `&`) is kept as it is, trimmed. */
  lemma BareIdKept(s: string)
    requires '/' !in s && '?' !in s && '&' !in s
    ensures ExtractDriveFileId(s) == Trim(s)
    ensures DirectId(s) == Trim(s)
  {
    NoLeadNoMatch(FilePattern, s);
    NoLeadNoMatch(IdParam, s);
    NoQuestionNoUc(s, 0);
  }

  /** A `/file/d/` link's id reads back, trimmed. */
  lemma FileRoundTrip(id: string, tail: string)
    requires id != [] && '/' !in id
    requires tail == [] || tail[0] == '/'
    ensures ExtractDriveFileId("/file/d/" + id + tail) == Trim(id)
    ensures ToDirectImageUrl("/file/d/" + id + tail) == DirectPrefix + Trim(id) + DirectSuffix
  {
    assert "/file/d/" + id + tail == ['/'] + FilePattern.lead + id + tail;
    MatchAtStart(FilePattern, '/', id, tail);
  }

  /** Both helpers agree whenever the `/file/d/` segment or the `id`
      parameter is present, or the `uc?` pattern does not match; they
      differ only on the `uc?` fallback. */
  lemma DirectUsesFileId(s: string)
    requires FirstMatch(FilePattern, s).Some? || FirstMatch(IdParam, s).Some? || UcMatch(s).None?
    ensures ToDirectImageUrl(s) == DirectPrefix + ExtractDriveFileId(s) + DirectSuffix
  {
  }

  /** What `extractDriveInfo` returns. */
  datatype DriveInfo = DriveInfo(id: string, resourceKey: Option<string>)

  /** `extractDriveInfo`: the file id, and the `resourcekey` parameter
      (`undefined` when absent). */
  function ExtractDriveInfo(urlOrId: string): (r: DriveInfo)
    ensures r.id == ExtractDriveFileId(urlOrId)
    ensures r.resourceKey.Some? ==> r.resourceKey.value != [] && '&' !in r.resourceKey.value && '#' !in r.resourceKey.value
    ensures r.resourceKey.None? <==> forall i :: 0 <= i < |urlOrId| ==> !MatchesAt(ResourceKeyParam, urlOrId, i)
    ensures r.resourceKey.Some? ==>
      exists i :: 0 <= i < |urlOrId| && MatchesAt(ResourceKeyParam, urlOrId, i)
        && r.resourceKey.value == CaptureAt(ResourceKeyParam, urlOrId, i)
        && forall j :: 0 <= j < i ==> !MatchesAt(ResourceKeyParam, urlOrId, j)
  {
    FirstMatchSpec(ResourceKeyParam, urlOrId, 0);
    DriveInfo(ExtractDriveFileId(urlOrId), FirstMatch(ResourceKeyParam, urlOrId))
  }

  /** The key of the first `resourcekey=` parameter reads back: it ends at
      `&`, `#` or the end of the link. */
  lemma ResourceKeyReadBack(base: string, c: char, key: string, tail: string)
    requires '?' !in base && '&' !in base
    requires c in {'?', '&'} && key != [] && '&' !in key && '#' !in key
    requires tail == [] || tail[0] in {'&', '#'}
    ensures ExtractDriveInfo(base + [c] + "resourcekey=" + key + tail).resourceKey == Some(key)
  {
    assert base + [c] + "resourcekey=" + key + tail == base + ([c] + ResourceKeyParam.lead + key + tail);
    MatchAfter(ResourceKeyParam, base, c, key, tail);
  }
}
