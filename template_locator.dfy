/**
 * `template_path` (lib/syro/tilt.rb:54-92): from a "fuzzy" name such as
 * `posts/show`, the template file to render. Every file under the template
 * directory whose path starts with the joined name is a candidate; the
 * candidates are sorted, and the first whose MIME type matches one of the
 * request's Accept ranges wins, else the first candidate, else none.
 *
 * The filesystem listing (`Dir.glob`), Rack's extension table and Rack's
 * `Mime.match?` come in through `Views`.
 */
module TemplateLocator {
  import opened Wrappers
  import opened Strings
  import opened StringOrder
  import opened AcceptHeader
  import opened MimeTypes

  /**
   * What the resolver reads besides its arguments: the template directory
   * (`templates_directory`, "views" unless a handler overrides it),
   * the recursive listing `Dir.glob(File.join(dir, '**', '*'))` of a
   * directory, the extension table and the media-range matcher.
   */
  datatype Views = Views(
    directory: string,
    glob: string -> seq<string>,
    mimeTypes: map<string, string>,
    matches: (string, string) -> bool)

  /**
   * The only way resolution fails: an empty comma-separated part of the
   * header has no media range (it parses to nil), and matching a type
   * against nil raises.
   */
  datatype ResolveError = NilMediaRange

  /** The files of `listing` that start with `prefix`, in listing order. */
  function Filter(listing: seq<string>, prefix: string): (r: seq<string>)
    ensures forall p :: p in r ==> prefix <= p
    ensures forall p :: prefix <= p ==> multiset(r)[p] == multiset(listing)[p]
  {
    if listing == [] then []
    else
      assert listing == [listing[0]] + listing[1..];
      if prefix <= listing[0] then [listing[0]] + Filter(listing[1..], prefix)
      else Filter(listing[1..], prefix)
  }

  /**
   * `potentials`: exactly the listed files that start with `prefix` (a plain
   * prefix test, so `show` also admits `show2`), each as often as listed, in
   * ascending order.
   */
  function Candidates(listing: seq<string>, prefix: string): (r: seq<string>)
    ensures Sorted(r)
    ensures forall p :: p in r <==> p in listing && prefix <= p
    ensures forall p :: prefix <= p ==> multiset(r)[p] == multiset(listing)[p]
  {
    var f := Filter(listing, prefix);
    var r := Sort(f);
    forall p ensures p in r <==> p in listing && prefix <= p {
      assert p in r <==> p in multiset(f);
      assert p in listing <==> p in multiset(listing);
      if prefix <= p {
        assert multiset(f)[p] == multiset(listing)[p];
      } else {
        assert p !in f;
      }
    }
    r
  }

  /** Some present range matches the MIME type. */
  ghost predicate Acceptable(mime: string, ranges: seq<Option<string>>, matches: (string, string) -> bool) {
    exists k :: 0 <= k < |ranges| && ranges[k].Some? && matches(mime, ranges[k].value)
  }

  /** No range is nil. */
  predicate Present(ranges: seq<Option<string>>) {
    forall k :: 0 <= k < |ranges| ==> ranges[k].Some?
  }

  /**
   * `accepts.any? { |acc, _q| Rack::Mime.match?(mime, acc) }`: whether some
   * range matches, the ranges tried left to right; reaching a nil range
   * before a match raises.
   */
  function AnyMatch(mime: string, ranges: seq<Option<string>>, matches: (string, string) -> bool): (r: Result<bool, ResolveError>)
    ensures r.Success? ==> r.value == Acceptable(mime, ranges, matches)
    ensures r.Failure? <==> exists k :: (0 <= k < |ranges| && ranges[k].None?
      && forall j :: 0 <= j < k ==> ranges[j].Some? && !matches(mime, ranges[j].value))
  {
    if ranges == [] then Success(false)
    else match ranges[0]
      case None => Failure(NilMediaRange)
      case Some(range) =>
        if matches(mime, range) then Success(true)
        else
          var rest := AnyMatch(mime, ranges[1..], matches);
          assert forall k :: 1 <= k < |ranges| ==> ranges[k] == ranges[1..][k - 1];
          rest
  }

  /** `template_mime_type` with the table of `views`. */
  function ContentTypes(views: Views): string -> string {
    path => MimeTypeOf(path, views.mimeTypes)
  }

  /** The candidate's type, as `typeOf` gives it, matches one of the ranges. */
  ghost predicate Accepted(candidate: string, ranges: seq<Option<string>>, typeOf: string -> string, matches: (string, string) -> bool) {
    Acceptable(typeOf(candidate), ranges, matches)
  }

  /**
   * `potentials.find { ... }`: the index of the first candidate whose type
   * (`typeOf`, which is `template_mime_type`) some range matches.
   */
  function FindAccepted(candidates: seq<string>, ranges: seq<Option<string>>, typeOf: string -> string, matches: (string, string) -> bool): (r: Result<Option<nat>, ResolveError>)
    ensures r.Success? && r.value.Some? ==>
      r.value.value < |candidates| && Accepted(candidates[r.value.value], ranges, typeOf, matches)
      && forall j :: 0 <= j < r.value.value ==> !Accepted(candidates[j], ranges, typeOf, matches)
    ensures r == Success(None) ==> forall j :: 0 <= j < |candidates| ==> !Accepted(candidates[j], ranges, typeOf, matches)
    ensures r.Failure? ==> candidates != [] && !Present(ranges)
    ensures Present(ranges) ==> r.Success?
    ensures r.Failure? <==> exists i ::
      && 0 <= i < |candidates|
      && AnyMatch(typeOf(candidates[i]), ranges, matches).Failure?
      && forall j :: 0 <= j < i ==> AnyMatch(typeOf(candidates[j]), ranges, matches) == Success(false)
  {
    if candidates == [] then Success(None)
    else
      match AnyMatch(typeOf(candidates[0]), ranges, matches)
      case Failure(e) => Failure(e)
      case Success(hit) =>
        if hit then Success(Some(0))
        else
          var rest := FindAccepted(candidates[1..], ranges, typeOf, matches);
          assert forall j :: 1 <= j < |candidates| ==> candidates[j] == candidates[1..][j - 1];
          match rest
          case Failure(e) => Failure(e)
          case Success(None) => Success(None)
          case Success(Some(i)) => Success(Some(i + 1))
  }

  /** The directory searched: `from`, or the template directory when `from` is nil. */
  function Directory(from: Option<string>, views: Views): string {
    if from.Some? then from.value else views.directory
  }

  /** The sorted candidates for a name under a directory. */
  function CandidatesFor(path: string, from: Option<string>, views: Views): seq<string> {
    var dir := Directory(from, views);
    Candidates(views.glob(dir), FileJoin(dir, path))
  }

  /**
   * `template_path(path, from)` with the Accept header passed explicitly:
   * the first sorted candidate that the header accepts, else the first
   * candidate; none exactly when there is no candidate. A file it returns
   * is a listed file that starts with the joined name.
   */
  function TemplatePath(path: string, from: Option<string>, accept: Option<string>, views: Views): (r: Result<Option<string>, ResolveError>)
    ensures r == Success(None) <==> CandidatesFor(path, from, views) == []
    ensures r.Success? && r.value.Some? ==>
      var dir := Directory(from, views);
      && r.value.value in CandidatesFor(path, from, views)
      && r.value.value in views.glob(dir)
      && FileJoin(dir, path) <= r.value.value
  {
    var dir := Directory(from, views);
    var ranges := Accepts(accept);
    var candidates := Candidates(views.glob(dir), FileJoin(dir, path));
    match FindAccepted(candidates, ranges, ContentTypes(views), views.matches)
    case Failure(e) => Failure(e)
    case Success(found) =>
      if found.Some? then Success(Some(candidates[found.value]))
      else if candidates == [] then Success(None)
      else Success(Some(candidates[0]))
  }

  /**
   * With no nil range in the header, resolution succeeds and picks the first
   * sorted candidate whose MIME type the header accepts; when it accepts
   * none, the first candidate (or none when there are no candidates).
   */
  lemma SelectsFirstAccepted(path: string, from: Option<string>, accept: Option<string>, views: Views)
    requires Present(Accepts(accept))
    ensures var c := CandidatesFor(path, from, views);
      var ranges := Accepts(accept);
      var r := TemplatePath(path, from, accept, views);
      && r.Success?
      && (forall i :: 0 <= i < |c| && Accepted(c[i], ranges, ContentTypes(views), views.matches)
            && (forall j :: 0 <= j < i ==> !Accepted(c[j], ranges, ContentTypes(views), views.matches))
            ==> r == Success(Some(c[i])))
      && ((forall i :: 0 <= i < |c| ==> !Accepted(c[i], ranges, ContentTypes(views), views.matches))
            ==> r == Success(if c == [] then None else Some(c[0])))
  {
    var c := CandidatesFor(path, from, views);
    var ranges := Accepts(accept);
    var t := ContentTypes(views);
    var found := FindAccepted(c, ranges, t, views.matches);
    assert found.Success?;
    var r := TemplatePath(path, from, accept, views);
    assert r == if found.value.Some? then Success(Some(c[found.value.value]))
      else if c == [] then Success(None) else Success(Some(c[0]));
    forall i | 0 <= i < |c| && Accepted(c[i], ranges, t, views.matches)
      && (forall j :: 0 <= j < i ==> !Accepted(c[j], ranges, t, views.matches))
      ensures r == Success(Some(c[i]))
    {
      assert found.value.Some?;
      assert found.value.value == i;
    }
  }

  /** A header made only of wildcard ranges resolves exactly like no header. */
  lemma {:induction false} OnlyAnyLikeNoHeader(path: string, from: Option<string>, header: string, views: Views)
    requires forall i :: 0 <= i < |Parse(header)| ==> Parse(header)[i] == Some(MIME_TYPE_ANY)
    ensures TemplatePath(path, from, Some(header), views) == TemplatePath(path, from, None, views)
  {
    OnlyAnyRejectsAll(header);
    NoHeaderNoRanges();
  }

  /** Without ranges nothing is accepted, so the first candidate wins. */
  lemma NoHeaderFirstCandidate(path: string, from: Option<string>, views: Views)
    ensures var c := CandidatesFor(path, from, views);
      TemplatePath(path, from, None, views) == Success(if c == [] then None else Some(c[0]))
  {
    NoHeaderNoRanges();
    SelectsFirstAccepted(path, from, None, views);
  }
}
