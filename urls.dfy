/** The two URLs the downloader requests, built with Python's `str.format`
    from the template `DATADRYAD_URL`. */
module Urls {
  import opened Wrappers

  /** A `{}` replacement field starts at `j`. */
  predicate FieldAt(t: string, j: nat)
  {
    j + 1 < |t| && t[j] == '{' && t[j + 1] == '}'
  }

  /** The leftmost `{}` field at or after `from`. */
  function FindField(t: string, from: nat): (r: Option<nat>)
    decreases |t| - from
    ensures r.Some? ==> from <= r.value && FieldAt(t, r.value)
    ensures r.Some? ==> forall j: nat :: from <= j < r.value ==> !FieldAt(t, j)
    ensures r.None? ==> forall j: nat :: from <= j ==> !FieldAt(t, j)
  {
    if |t| <= from + 1 then None
    else if FieldAt(t, from) then Some(from)
    else FindField(t, from + 1)
  }

  /** `t.format(arg)` for a template with at most one `{}` field: the field is
      replaced by `arg`, which is inserted as it is and never scanned for
      fields itself. A template without a field comes back unchanged. */
  function Format(t: string, arg: string): (r: string)
    ensures FindField(t, 0).None? ==> r == t
    ensures FindField(t, 0).Some? ==>
      var k := FindField(t, 0).value;
      && |r| == |t| - 2 + |arg|
      && r[..k] == t[..k]
      && r[k..k + |arg|] == arg
      && r[k + |arg|..] == t[k + 2..]
  {
    match FindField(t, 0)
    case None => t
    case Some(k) => t[..k] + arg + t[k + 2..]
  }

  const DATADRYAD_URL: string := "https://datadryad.org/{}"

  /** `API_FILE = DATADRYAD_URL.format("/api/v2/files/{}")`: the `{}` of the
      argument survives into the new template. */
  const API_FILE: string := Format(DATADRYAD_URL, "/api/v2/files/{}")

  /** `get_metadata`: `API_FILE.format(fid)` is the fixed prefix, with its
      double slash, followed by the identifier verbatim. */
  function MetadataUrl(fid: string): (url: string)
    ensures url == METADATA_PREFIX + fid
  {
    ApiFileValue();
    ApiFileSplit();
    FormatSplices(METADATA_PREFIX, "", fid);
    Format(API_FILE, fid)
  }

  /** `main`: `DATADRYAD_URL.format(href)` is the site root followed by the
      metadata's download link verbatim. */
  function DownloadUrl(href: string): (url: string)
    ensures url == SITE + href
  {
    DatadryadUrlSplit();
    FormatSplices(SITE, "", href);
    Format(DATADRYAD_URL, href)
  }

  /** The site root that `DATADRYAD_URL` formats into. */
  const SITE: string := "https://datadryad.org/"

  /** What precedes the identifier in every metadata URL. */
  const METADATA_PREFIX: string := "https://datadryad.org//api/v2/files/"

  /** Formatting a template whose only `{` opens its `{}` field splices the
      argument in verbatim between the text before and after the field. */
  lemma FormatSplices(pre: string, post: string, arg: string)
    requires '{' !in pre
    ensures Format(pre + "{}" + post, arg) == pre + arg + post
  {
    var t := pre + "{}" + post;
    assert forall j :: 0 <= j < |pre| ==> t[j] == pre[j];
    assert FieldAt(t, |pre|);
    assert FindField(t, 0) == Some(|pre|);
    assert t[..|pre|] == pre;
    assert t[|pre| + 2..] == post;
  }

  /** `DATADRYAD_URL` is the site root followed by its one field. */
  lemma DatadryadUrlSplit()
    ensures DATADRYAD_URL == SITE + "{}" + ""
    ensures '{' !in SITE
  {
  }

  /** The metadata template carries a double slash after the host, because
      the path formatted into `DATADRYAD_URL` starts with `/` while the
      template already ends in one. */
  lemma ApiFileValue()
    ensures API_FILE == "https://datadryad.org//api/v2/files/{}"
  {
    DatadryadUrlSplit();
    FormatSplices(SITE, "", "/api/v2/files/{}");
    calc {
      API_FILE;
      SITE + "/api/v2/files/{}" + "";
      "https://datadryad.org/" + "/api/v2/files/{}";
      "https://datadryad.org//api/v2/files/{}";
    }
  }

  /** `API_FILE` is the metadata prefix followed by its one field. */
  lemma ApiFileSplit()
    ensures "https://datadryad.org//api/v2/files/{}" == METADATA_PREFIX + "{}" + ""
    ensures '{' !in METADATA_PREFIX
  {
  }

  /** Nothing of the identifier is lost: it can be read back from its
      metadata URL, so different identifiers query different URLs. */
  lemma MetadataUrlInjective(fid: string, fid': string)
    ensures MetadataUrl(fid) == MetadataUrl(fid') <==> fid == fid'
  {
    assert MetadataUrl(fid)[|METADATA_PREFIX|..] == fid;
    assert MetadataUrl(fid')[|METADATA_PREFIX|..] == fid';
  }

  /** Nothing of the link is lost: different links download from different URLs. */
  lemma DownloadUrlInjective(href: string, href': string)
    ensures DownloadUrl(href) == DownloadUrl(href') <==> href == href'
  {
    assert DownloadUrl(href)[|SITE|..] == href;
    assert DownloadUrl(href')[|SITE|..] == href';
  }
}
