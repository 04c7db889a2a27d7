/**
 * What the analyze handler of server/routes.ts does with the extraction tool's
 * metadata: the tool itself is a foreign process, so its answer is an input
 * here (a failure or an `Info` record), and only the mapping of that record to
 * the response and the stored download is modelled.
 */
module Extractor {
  import opened Records

  /** One entry of the tool's `formats` list, with the keys the handler reads. */
  datatype RawFormat = RawFormat(
    url: Option<string>,
    ext: Option<string>,
    formatNote: Option<string>,
    resolution: Option<string>,
    format: Option<string>)

  /** The parsed metadata document, with the keys the handler reads. */
  datatype Info = Info(title: Option<string>, thumbnail: Option<string>, formats: Option<seq<RawFormat>>)

  /**
   * What running the tool and parsing its output yields: any failure (the
   * process fails, its output exceeds the buffer or is not JSON) or the info.
   */
  datatype Outcome = Failed | Extracted(info: Info)

  /** The 200 body of a successful analyze call. */
  datatype Analysis = Analysis(title: string, thumbnail: string, formats: seq<Format>)

  predicate StartsWith(s: string, prefix: string) {
    |prefix| <= |s| && s[..|prefix|] == prefix
  }

  /** `f.url && f.url.startsWith('http')` */
  predicate Keeps(f: RawFormat) {
    TruthyText(f.url) && StartsWith(f.url.value, "http")
  }

  /**
   * The `map` step on one entry: the url and ext as given, quality the first
   * truthy of format_note and resolution, else "unknown", label the format
   * string, else "unknown".
   */
  function ToFormat(f: RawFormat): (r: Format)
    requires f.url.Some?
    ensures r.url == f.url.value && r.ext == f.ext
    ensures TruthyText(f.formatNote) ==> r.quality == f.formatNote.value
    ensures !TruthyText(f.formatNote) && TruthyText(f.resolution) ==> r.quality == f.resolution.value
    ensures !TruthyText(f.formatNote) && !TruthyText(f.resolution) ==> r.quality == "unknown"
    ensures TruthyText(f.format) ==> r.formatLabel == f.format.value
    ensures !TruthyText(f.format) ==> r.formatLabel == "unknown"
    ensures r.quality != "" && r.formatLabel != ""
  {
    Format(
      url := f.url.value,
      ext := f.ext,
      quality := TextOr(f.formatNote, TextOr(f.resolution, "unknown")),
      formatLabel := TextOr(f.format, "unknown"))
  }

  /**
   * `formats.map(...).filter(f => f.url && f.url.startsWith('http'))`. The map
   * keeps the url unchanged, so mapping each kept entry is the same list.
   */
  function MapFormats(raw: seq<RawFormat>): (r: seq<Format>)
    ensures |r| <= |raw|
    ensures forall i :: 0 <= i < |r| ==> StartsWith(r[i].url, "http")
    ensures forall f :: f in raw && Keeps(f) ==> ToFormat(f) in r
    ensures forall x :: x in r ==> exists f :: f in raw && Keeps(f) && ToFormat(f) == x
  {
    if |raw| == 0 then []
    else
      var rest := MapFormats(raw[1..]);
      assert forall f :: f in raw[1..] ==> f in raw;
      assert forall f :: f in raw ==> f == raw[0] || f in raw[1..];
      if Keeps(raw[0]) then [ToFormat(raw[0])] + rest else rest
  }

  /** Entries are mapped one at a time, so the formats keep the tool's order. */
  lemma {:induction false} MapFormatsAppend(a: seq<RawFormat>, b: seq<RawFormat>)
    ensures MapFormats(a + b) == MapFormats(a) + MapFormats(b)
  {
    if |a| == 0 {
      assert a + b == b;
    } else {
      assert (a + b)[1..] == a[1..] + b;
      MapFormatsAppend(a[1..], b);
    }
  }

  /** When the tool offers only http(s) links, every entry is kept, in order. */
  lemma {:induction false} MapFormatsKeepsAll(raw: seq<RawFormat>)
    requires forall i :: 0 <= i < |raw| ==> Keeps(raw[i])
    ensures |MapFormats(raw)| == |raw|
    ensures forall i :: 0 <= i < |raw| ==> MapFormats(raw)[i] == ToFormat(raw[i])
  {
    if |raw| > 0 {
      MapFormatsKeepsAll(raw[1..]);
    }
  }

  /**
   * The response body built from the info: title `info.title || "Unknown
   * Title"`, thumbnail `info.thumbnail || ""`, and the kept formats of
   * `info.formats || []`.
   */
  function Summarize(info: Info): (a: Analysis)
    ensures a.title != ""
    ensures TruthyText(info.title) ==> a.title == info.title.value
    ensures !TruthyText(info.title) ==> a.title == "Unknown Title"
    ensures TruthyText(info.thumbnail) ==> a.thumbnail == info.thumbnail.value
    ensures !TruthyText(info.thumbnail) ==> a.thumbnail == ""
    ensures info.formats.None? ==> a.formats == []
    ensures info.formats.Some? ==> a.formats == MapFormats(info.formats.value)
  {
    Analysis(
      title := TextOr(info.title, "Unknown Title"),
      thumbnail := TextOr(info.thumbnail, ""),
      formats := MapFormats(if info.formats.Some? then info.formats.value else []))
  }
}
