/**
 * The HTTP Accept header as `template_path` reads it (lib/syro/tilt.rb:58-75):
 * the header is split on commas together with the whitespace around them,
 * each part keeps the text before its first `;` as its media range, and the
 * wildcard ranges that match everything are rejected. Quality parameters are parsed by the source but
 * never used, so they are not part of this model.
 */
module AcceptHeader {
  import opened Wrappers
  import opened Strings

  /** The media range that matches every type. */
  const MIME_TYPE_ANY := "*/*"

  /** A comma-split field with the whitespace the pattern `\s*,\s*` absorbs removed on the sides where a comma was. */
  function TrimField(field: string, afterComma: bool, beforeComma: bool): (r: string)
    ensures forall c :: c in r ==> c in field
  {
    var f := if afterComma then TrimLeft(field) else field;
    assert forall c :: c in f ==> c in field by {
      assert f == field[|field| - |f|..];
    }
    if beforeComma then TrimRight(f) else f
  }

  /**
   * What `TrimField` removes is exactly the padding: the field is the result
   * with whitespace before it (only after a comma) and after it (only before
   * a comma), and on those sides the result does not start or end with
   * whitespace.
   */
  lemma TrimFieldPadding(field: string, afterComma: bool, beforeComma: bool)
    ensures var r := TrimField(field, afterComma, beforeComma);
      && (exists i, j ::
            && 0 <= i <= j <= |field| && r == field[i..j]
            && (forall k :: 0 <= k < i ==> IsSpace(field[k]))
            && (forall k :: j <= k < |field| ==> IsSpace(field[k]))
            && (i > 0 ==> afterComma) && (j < |field| ==> beforeComma))
      && (r != [] && afterComma ==> !IsSpace(r[0]))
      && (r != [] && beforeComma ==> !IsSpace(r[|r| - 1]))
  {
    var f := if afterComma then TrimLeft(field) else field;
    var i := |field| - |f|;
    assert f == field[i..];
    var r := if beforeComma then TrimRight(f) else f;
    assert r == TrimField(field, afterComma, beforeComma);
    var j := i + |r|;
    assert r == field[i..j];
    forall k | j <= k < |field| ensures IsSpace(field[k]) {
      assert field[k] == f[k - i];
    }
    assert r != [] ==> r[0] == f[0];
  }

  /** `header.split` on the pattern `\s*,\s*`: the comma-separated parts, trailing empty parts dropped. */
  function HeaderParts(header: string): (r: seq<string>)
    ensures r == [] || r[|r| - 1] != ""
    ensures forall i :: 0 <= i < |r| ==> ',' !in r[i]
  {
    DropTrailingEmpty(TrimFields(SplitOn(header, ',')))
  }

  /** Each field trimmed on the sides where a comma was. */
  function TrimFields(fields: seq<string>): seq<string> {
    seq(|fields|, i requires 0 <= i < |fields| => TrimField(fields[i], i > 0, i < |fields| - 1))
  }

  /** The text before the first occurrence of `c` (all of `s` when there is none). */
  function UpTo(s: string, c: char): (r: string)
    ensures r <= s && c !in r
    ensures |r| < |s| ==> s[|r|] == c
  {
    if s == [] || s[0] == c then "" else [s[0]] + UpTo(s[1..], c)
  }

  /**
   * The attribute of `part.split` on the pattern `\s*;\s*` with limit 2: nil for an empty part (Ruby
   * splits an empty string into no fields), otherwise the text before the
   * first `;` without the whitespace that precedes that `;`.
   */
  function MediaRange(part: string): (r: Option<string>)
    ensures r.None? <==> part == ""
    ensures r.Some? ==> r.value <= part && ';' !in r.value
    ensures r.Some? && ';' !in part ==> r.value == part
    ensures r.Some? && ';' in part ==> r.value == TrimRight(UpTo(part, ';'))
  {
    if part == "" then None
    else if ';' in part then Some(TrimRight(UpTo(part, ';')))
    else Some(part)
  }

  /** The media ranges of an Accept header, one per comma-separated part, in header order. */
  function Parse(header: string): (r: seq<Option<string>>)
    ensures |r| == |HeaderParts(header)|
    ensures forall i :: 0 <= i < |r| ==> r[i] == MediaRange(HeaderParts(header)[i])
  {
    var parts := HeaderParts(header);
    seq(|parts|, i requires 0 <= i < |parts| => MediaRange(parts[i]))
  }

  /** `accepts.reject! { |acc, _q| acc == MIME_TYPE_ANY }`: the ranges without the wildcard, in order. */
  function RejectAny(ranges: seq<Option<string>>): (r: seq<Option<string>>)
    ensures Some(MIME_TYPE_ANY) !in r
    ensures multiset(r) == multiset(ranges)[Some(MIME_TYPE_ANY) := 0]
  {
    if ranges == [] then []
    else
      assert ranges == [ranges[0]] + ranges[1..];
      if ranges[0] == Some(MIME_TYPE_ANY) then RejectAny(ranges[1..])
      else [ranges[0]] + RejectAny(ranges[1..])
  }

  /** The ranges `template_path` compares candidates against; an absent header reads as "". */
  function Accepts(header: Option<string>): seq<Option<string>> {
    RejectAny(Parse(if header.Some? then header.value else ""))
  }

  /** An absent header and an empty one give no ranges at all. */
  lemma NoHeaderNoRanges()
    ensures Accepts(None) == [] && Accepts(Some("")) == []
  {
  }

  /** A header whose every range is the wildcard leaves nothing to compare against. */
  lemma {:induction false} OnlyAnyRejectsAll(header: string)
    requires forall i :: 0 <= i < |Parse(header)| ==> Parse(header)[i] == Some(MIME_TYPE_ANY)
    ensures Accepts(Some(header)) == []
  {
    var ranges := Parse(header);
    assert forall x :: x in multiset(ranges) ==> x == Some(MIME_TYPE_ANY);
    assert multiset(RejectAny(ranges)) == multiset{};
  }

  /** A media range as it may be written in a header: nonempty, no comma, semicolon or whitespace. */
  predicate PlainRange(s: string) {
    s != [] && forall c :: c in s ==> c != ',' && c != ';' && !IsSpace(c)
  }

  /**
   * One entry of a header as a client may write it: whitespace before it, the
   * media range, then (when there are parameters) whitespace, `;` and the
   * parameters, and whitespace after it.
   */
  datatype Entry = Entry(lead: string, range: string, gap: string, params: string, trail: string)

  /** The padding is whitespace, the range is plain, the parameters hold no comma and do not end in whitespace. */
  predicate WellFormed(e: Entry) {
    && Spaces(e.lead) && Spaces(e.gap) && Spaces(e.trail)
    && PlainRange(e.range)
    && ',' !in e.params && (e.params == "" || !IsSpace(e.params[|e.params| - 1]))
  }

  /** The entry without the whitespace around it. */
  function Core(e: Entry): string {
    if e.params == "" then e.range else e.range + e.gap + ";" + e.params
  }

  /** The entry's text in a header: its leading whitespace unless it is first, its trailing whitespace unless it is last. */
  function EntryText(e: Entry, first: bool, last: bool): string {
    (if first then "" else e.lead) + Core(e) + (if last then "" else e.trail)
  }

  function EntryTexts(entries: seq<Entry>): seq<string> {
    seq(|entries|, i requires 0 <= i < |entries| => EntryText(entries[i], i == 0, i == |entries| - 1))
  }

  /** The header listing the entries separated by commas. */
  function Header(entries: seq<Entry>): string
    requires |entries| >= 1
  {
    JoinWith(EntryTexts(entries), ',')
  }

  function Cores(entries: seq<Entry>): seq<string> {
    seq(|entries|, i requires 0 <= i < |entries| => Core(entries[i]))
  }

  /** The media ranges of the entries, in order. */
  function RangesOf(entries: seq<Entry>): seq<Option<string>> {
    seq(|entries|, i requires 0 <= i < |entries| => Some(entries[i].range))
  }

  lemma {:induction false} UpToField(a: string, b: string, c: char)
    requires c !in a
    ensures UpTo(a + [c] + b, c) == a
  {
    if a != [] {
      assert (a + [c] + b)[1..] == a[1..] + [c] + b;
      UpToField(a[1..], b, c);
      assert [a[0]] + a[1..] == a;
    }
  }

  /** A well-formed entry without its padding: no comma, non-space at both ends, and its media range is the range. */
  lemma CoreRange(e: Entry)
    requires WellFormed(e)
    ensures var t := Core(e);
      && t != [] && !IsSpace(t[0]) && !IsSpace(t[|t| - 1]) && ',' !in t
      && MediaRange(t) == Some(e.range)
  {
    var t := Core(e);
    assert e.range[0] in e.range && e.range[|e.range| - 1] in e.range;
    if e.params != "" {
      var head := e.range + e.gap;
      assert ';' !in head by {
        assert forall c :: c in head ==> c in e.range || c in e.gap;
      }
      assert t == head + [';'] + e.params;
      UpToField(head, e.params, ';');
      TrimRightPadded(e.range, e.gap);
      assert t[|head|] == ';';
      assert forall c :: c in t ==> c in e.range || c in e.gap || c == ';' || c in e.params;
      assert t[0] == e.range[0];
      assert t[|t| - 1] == e.params[|e.params| - 1];
    }
  }

  /** Trimming padded text as the comma split does removes exactly the padding. */
  lemma TrimFieldOfPadded(lead: string, core: string, trail: string, afterComma: bool, beforeComma: bool)
    requires Spaces(lead) && Spaces(trail)
    requires core != [] && !IsSpace(core[0]) && !IsSpace(core[|core| - 1])
    requires (!afterComma ==> lead == []) && (!beforeComma ==> trail == [])
    ensures TrimField(lead + core + trail, afterComma, beforeComma) == core
  {
    var text := lead + core + trail;
    assert text == lead + (core + trail);
    var f := if afterComma then TrimLeft(text) else text;
    if afterComma {
      assert (core + trail)[0] == core[0];
      TrimLeftPadded(lead, core + trail);
    }
    assert f == core + trail;
    if beforeComma {
      TrimRightPadded(core, trail);
    } else {
      assert core + trail == core;
    }
  }

  /** An entry's text holds no comma, and trimming it as the comma split does leaves exactly its core. */
  lemma EntryTrimmed(e: Entry, first: bool, last: bool)
    requires WellFormed(e)
    ensures ',' !in EntryText(e, first, last)
    ensures TrimField(EntryText(e, first, last), !first, !last) == Core(e)
  {
    CoreRange(e);
    var lead := if first then "" else e.lead;
    var trail := if last then "" else e.trail;
    assert Spaces(lead) && Spaces(trail);
    var text := EntryText(e, first, last);
    assert text == lead + Core(e) + trail;
    assert forall c :: c in text ==> c in lead || c in Core(e) || c in trail;
    TrimFieldOfPadded(lead, Core(e), trail, !first, !last);
  }

  /**
   * Parsing a header written from well-formed entries, with any whitespace
   * around the commas and before each `;`, gives back their media ranges,
   * one per entry and in order.
   */
  lemma {:induction false} ParseHeader(entries: seq<Entry>)
    requires |entries| >= 1
    requires forall i :: 0 <= i < |entries| ==> WellFormed(entries[i])
    ensures Parse(Header(entries)) == RangesOf(entries)
  {
    HeaderPartsOf(entries);
    var parsed := Parse(Header(entries));
    forall i | 0 <= i < |entries| ensures parsed[i] == Some(entries[i].range) {
      CoreRange(entries[i]);
    }
  }

  /** The comma split of such a header, with the padding trimmed, is the entries' cores. */
  lemma HeaderPartsOf(entries: seq<Entry>)
    requires |entries| >= 1
    requires forall i :: 0 <= i < |entries| ==> WellFormed(entries[i])
    ensures HeaderParts(Header(entries)) == Cores(entries)
  {
    var n := |entries|;
    var texts := EntryTexts(entries);
    var cores := Cores(entries);
    forall i | 0 <= i < n
      ensures ',' !in texts[i] && TrimField(texts[i], i > 0, i < n - 1) == cores[i]
    {
      EntryTrimmed(entries[i], i == 0, i == n - 1);
    }
    SplitJoin(texts, ',');
    assert SplitOn(Header(entries), ',') == texts;
    assert TrimFields(texts) == cores;
    CoreRange(entries[n - 1]);
    assert DropTrailingEmpty(cores) == cores;
  }

  /** `reject!` keeps the header's order: rejecting from two lists one after the other rejects from each. */
  lemma {:induction false} RejectAnyConcat(a: seq<Option<string>>, b: seq<Option<string>>)
    ensures RejectAny(a + b) == RejectAny(a) + RejectAny(b)
  {
    if a == [] {
      assert a + b == b;
    } else {
      assert (a + b)[0] == a[0];
      assert (a + b)[1..] == a[1..] + b;
      RejectAnyConcat(a[1..], b);
    }
  }
}
