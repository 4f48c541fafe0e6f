/**
 * `template_mime_type` (lib/syro/tilt.rb:98-102): the MIME type of a template
 * file, read off the dot-separated segments of its base name from right to
 * left, so that in `show.html.erb` an unknown engine extension `.erb` lets
 * the content extension `.html` decide. The extension table (Rack's
 * `MIME_TYPES`) is a parameter.
 */
module MimeTypes {
  import opened Wrappers
  import opened Strings

  /** The type of a file none of whose segments is in the table. */
  const DEFAULT_MIME_TYPE := "text/plain"

  /** The table key of one segment: a dot and the segment in lower case. */
  function ExtensionKey(segment: string): string {
    "." + Lower(segment)
  }

  /** `File.basename(path).split(DOT)`. */
  function Segments(path: string): seq<string> {
    RubySplit(Basename(path), '.')
  }

  /** The table's type for one segment, nil when the table has none. */
  function Lookup(segment: string, table: map<string, string>): Option<string> {
    var key := ExtensionKey(segment);
    if key in table then Some(table[key]) else None
  }

  /** `Array#reverse`. */
  function Reversed(s: seq<string>): (r: seq<string>)
    ensures |r| == |s|
    ensures forall i :: 0 <= i < |s| ==> r[i] == s[|s| - 1 - i]
  {
    if s == [] then [] else [s[|s| - 1]] + Reversed(s[..|s| - 1])
  }

  /** `map { |ext| MIME_TYPES[...] }` over the segments. */
  function Lookups(segments: seq<string>, table: map<string, string>): (r: seq<Option<string>>)
    ensures |r| == |segments|
    ensures forall i :: 0 <= i < |segments| ==> r[i] == Lookup(segments[i], table)
  {
    if segments == [] then [] else [Lookup(segments[0], table)] + Lookups(segments[1..], table)
  }

  /** `Array#compact`: the non-nil values, in order. */
  function Compact(values: seq<Option<string>>): (r: seq<string>)
    ensures forall x :: x in r <==> Some(x) in values
    ensures values != [] && values[0].Some? ==> r != [] && r[0] == values[0].value
  {
    if values == [] then []
    else if values[0].Some? then [values[0].value] + Compact(values[1..])
    else Compact(values[1..])
  }

  /**
   * `File.basename(path).split(DOT).reverse.map { ... }.compact.first ||
   * DEFAULT_MIME_TYPE`.
   */
  function MimeTypeOf(path: string, table: map<string, string>): string {
    var found := Compact(Lookups(Reversed(Segments(path)), table));
    if found == [] then DEFAULT_MIME_TYPE else found[0]
  }

  /** The index of the rightmost segment whose key the table knows, if there is one. */
  function RightmostKnown(segments: seq<string>, table: map<string, string>): (r: Option<nat>)
    ensures r.Some? ==> r.value < |segments| && ExtensionKey(segments[r.value]) in table
    ensures r.Some? ==> forall j :: r.value < j < |segments| ==> ExtensionKey(segments[j]) !in table
    ensures r.None? ==> forall j :: 0 <= j < |segments| ==> ExtensionKey(segments[j]) !in table
  {
    if segments == [] then None
    else if ExtensionKey(segments[|segments| - 1]) in table then Some(|segments| - 1)
    else RightmostKnown(segments[..|segments| - 1], table)
  }

  /** The first type the reversed, compacted lookups yield is the rightmost known segment's. */
  lemma {:induction false} FirstFoundIsRightmost(segments: seq<string>, table: map<string, string>)
    ensures var found := Compact(Lookups(Reversed(segments), table));
      match RightmostKnown(segments, table)
      case None => found == []
      case Some(i) => found != [] && found[0] == table[ExtensionKey(segments[i])]
  {
    if segments != [] {
      var n := |segments|;
      var front := segments[..n - 1];
      FirstFoundIsRightmost(front, table);
      assert Reversed(segments) == [segments[n - 1]] + Reversed(front);
      assert Lookups(Reversed(segments), table) == [Lookup(segments[n - 1], table)] + Lookups(Reversed(front), table);
      if ExtensionKey(segments[n - 1]) !in table {
        forall j | 0 <= j < n - 1 ensures front[j] == segments[j] { }
      }
    }
  }

  /**
   * The type of a template file is the table's entry for the rightmost
   * segment of its base name that has one, the file stem included; the
   * default type when no segment has one.
   */
  lemma MimeTypeOfRightmost(path: string, table: map<string, string>)
    ensures var segments := Segments(path);
      var r := MimeTypeOf(path, table);
      || (exists i :: 0 <= i < |segments| && ExtensionKey(segments[i]) in table
            && r == table[ExtensionKey(segments[i])]
            && forall j :: i < j < |segments| ==> ExtensionKey(segments[j]) !in table)
      || (r == DEFAULT_MIME_TYPE && forall j :: 0 <= j < |segments| ==> ExtensionKey(segments[j]) !in table)
  {
    var segments := Segments(path);
    FirstFoundIsRightmost(segments, table);
    match RightmostKnown(segments, table)
    case None =>
    case Some(i) =>
      assert 0 <= i < |segments| && ExtensionKey(segments[i]) in table
        && MimeTypeOf(path, table) == table[ExtensionKey(segments[i])]
        && forall j :: i < j < |segments| ==> ExtensionKey(segments[j]) !in table;
  }
}
