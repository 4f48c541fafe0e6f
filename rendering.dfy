/**
 * The per-request side of the helpers (lib/syro/tilt.rb:118-187): the layout
 * and the captured-content registry kept in the request's inbox, and the
 * composition of `partial` and `render`. The Tilt engine is a parameter:
 * given a template file, the locals and the text its `yield` returns, it
 * produces the rendered text.
 */
module Rendering {
  import opened Wrappers
  import opened Strings
  import opened MimeTypes
  import opened TemplateLocator

  /** The locals handed to a template, by name. */
  type Locals = map<string, string>

  /** The local that names the directory to search instead of the template directory. */
  const FROM := "from"

  /** What `content_for` returns in capture mode. */
  const EMPTY := ""

  /** Tilt: the text of the template at a path, rendered with locals and the text its `yield` gives. */
  type Engine = (string, Locals, Option<string>) -> string

  /** What `render` writes to the response: the Content-Type header and the body. */
  datatype Response = Response(contentType: string, body: string)

  /** Resolution raised, or no template file matched the name (Tilt cannot load nil). */
  datatype RenderError = Unresolved(error: ResolveError) | NoTemplate(name: string)

  // ---------------------------------------------------------------------------
  // The captured-content registry as a value
  // ---------------------------------------------------------------------------

  /** The strings captured under `key`, oldest first; none when the key is absent. */
  function Captured(captures: map<string, seq<string>>, key: string): seq<string> {
    if key in captures then captures[key] else []
  }

  /** Capture mode: the block's string goes after those already captured under `key`. */
  function Capture(captures: map<string, seq<string>>, key: string, s: string): (r: map<string, seq<string>>)
    ensures Captured(r, key) == Captured(captures, key) + [s]
    ensures r.Keys == captures.Keys + {key}
    ensures forall k :: k in captures && k != key ==> r[k] == captures[k]
  {
    captures[key := Captured(captures, key) + [s]]
  }

  /**
   * Emit mode: the strings captured under `key` joined in capture order, and
   * the registry without `key`; every other key keeps its captures.
   */
  function Emit(captures: map<string, seq<string>>, key: string): (r: (string, map<string, seq<string>>))
    ensures r.0 == Concat(Captured(captures, key))
    ensures r.1.Keys == captures.Keys - {key}
    ensures forall k :: k in r.1 ==> r.1[k] == captures[k]
  {
    (Concat(Captured(captures, key)), captures - {key})
  }

  /**
   * `content_for?`: whether anything is captured under `key`; the registry
   * afterwards holds an empty list for a key it did not have and is
   * otherwise unchanged.
   */
  function Query(captures: map<string, seq<string>>, key: string): (r: (bool, map<string, seq<string>>))
    ensures r.0 <==> Captured(captures, key) != []
    ensures r.1.Keys == captures.Keys + {key}
    ensures forall k :: k in r.1 ==> Captured(r.1, k) == Captured(captures, k)
  {
    var m := if key in captures then captures else captures[key := []];
    (m[key] != [], m)
  }

  /** Capturing each of `parts` under `key`, in order. */
  function CaptureAll(captures: map<string, seq<string>>, key: string, parts: seq<string>): map<string, seq<string>>
    decreases |parts|
  {
    if parts == [] then captures
    else CaptureAll(Capture(captures, key, parts[0]), key, parts[1..])
  }

  lemma {:induction false} CaptureAllAppends(captures: map<string, seq<string>>, key: string, parts: seq<string>)
    ensures Captured(CaptureAll(captures, key, parts), key) == Captured(captures, key) + parts
    decreases |parts|
  {
    if parts != [] {
      CaptureAllAppends(Capture(captures, key, parts[0]), key, parts[1..]);
      assert [parts[0]] + parts[1..] == parts;
    }
  }

  /**
   * Emitting after a series of captures returns what was captured before
   * them followed by each captured string, in capture order.
   */
  lemma EmitAfterCaptures(captures: map<string, seq<string>>, key: string, parts: seq<string>)
    ensures Emit(CaptureAll(captures, key, parts), key).0 == Emit(captures, key).0 + Concat(parts)
  {
    CaptureAllAppends(captures, key, parts);
    ConcatSplit(Captured(captures, key), parts);
  }

  /** Emitting consumes: an immediate second emit returns the empty string, and the query is false. */
  lemma EmitConsumes(captures: map<string, seq<string>>, key: string)
    ensures var after := Emit(captures, key).1;
      Emit(after, key).0 == "" && !Query(after, key).0
  {
  }

  /** The query never consumes: every key emits afterwards what it would have emitted before. */
  lemma QueryKeepsCaptures(captures: map<string, seq<string>>, key: string, other: string)
    ensures Emit(Query(captures, key).1, other).0 == Emit(captures, other).0
  {
  }

  // ---------------------------------------------------------------------------
  // partial and render
  // ---------------------------------------------------------------------------

  /** `locals.delete(:from)`, read without deleting. */
  function FromOf(locals: Locals): Option<string> {
    if FROM in locals then Some(locals[FROM]) else None
  }

  /** The template file for a name, or why there is none to hand to Tilt. */
  function Locate(path: string, from: Option<string>, accept: Option<string>, views: Views): (r: Result<string, RenderError>)
    ensures r.Success? <==> TemplatePath(path, from, accept, views).Success? && TemplatePath(path, from, accept, views).value.Some?
    ensures r.Success? ==> r.value == TemplatePath(path, from, accept, views).value.value
    ensures r == Failure(NoTemplate(path)) <==> CandidatesFor(path, from, views) == []
  {
    match TemplatePath(path, from, accept, views)
    case Failure(e) => Failure(Unresolved(e))
    case Success(None) => Failure(NoTemplate(path))
    case Success(Some(file)) => Success(file)
  }

  /**
   * `partial(path, locals) { inner }`: the resolved template rendered with
   * the locals minus `:from` (which chose the directory) and with `inner` as
   * what its `yield` returns. No template is an error, never empty text.
   */
  function PartialOutput(views: Views, engine: Engine, accept: Option<string>, path: string, locals: Locals, inner: Option<string>): (r: Result<string, RenderError>)
    ensures r.Success? <==> Locate(path, FromOf(locals), accept, views).Success?
    ensures r.Success? ==> r.value == engine(Locate(path, FromOf(locals), accept, views).value, locals - {FROM}, inner)
  {
    var file :- Locate(path, FromOf(locals), accept, views);
    Success(engine(file, locals - {FROM}, inner))
  }

  /**
   * `render(path, locals) { inner }`: the page rendered, then, when a layout
   * is set, the layout rendered around it (same locals and directory, the
   * page's text as what the layout's `yield` returns). The content type is
   * always the page's.
   *
   * The source resolves the page a second time for the content type; the
   * resolver is a function, so the first resolution is reused.
   */
  function RenderResponse(views: Views, engine: Engine, accept: Option<string>, layout: Option<string>, path: string, locals: Locals, inner: Option<string>): (r: Result<Response, RenderError>)
    ensures r.Success? ==>
      var page := Locate(path, FromOf(locals), accept, views);
      && page.Success?
      && r.value.contentType == MimeTypeOf(page.value, views.mimeTypes)
    ensures layout.None? ==> r.Success? == PartialOutput(views, engine, accept, path, locals, inner).Success?
    ensures layout.None? && r.Success? ==> r.value.body == PartialOutput(views, engine, accept, path, locals, inner).value
    ensures layout.Some? ==>
      var content := PartialOutput(views, engine, accept, path, locals, inner);
      r.Success? <==> content.Success? && PartialOutput(views, engine, accept, layout.value, locals, Some(content.value)).Success?
    ensures layout.Some? && r.Success? ==>
      var content := PartialOutput(views, engine, accept, path, locals, inner);
      && content.Success?
      && PartialOutput(views, engine, accept, layout.value, locals, Some(content.value)) == Success(r.value.body)
  {
    var page :- Locate(path, FromOf(locals), accept, views);
    var content := engine(page, locals - {FROM}, inner);
    var body :- if layout.Some? then PartialOutput(views, engine, accept, layout.value, locals, Some(content))
                else Success(content);
    Success(Response(MimeTypeOf(page, views.mimeTypes), body))
  }

  /** The layout changes the body only: the content type is the page's with or without one. */
  lemma ContentTypeIgnoresLayout(views: Views, engine: Engine, accept: Option<string>, layout: Option<string>, path: string, locals: Locals, inner: Option<string>)
    requires RenderResponse(views, engine, accept, layout, path, locals, inner).Success?
    ensures RenderResponse(views, engine, accept, None, path, locals, inner).Success?
    ensures RenderResponse(views, engine, accept, layout, path, locals, inner).value.contentType
         == RenderResponse(views, engine, accept, None, path, locals, inner).value.contentType
  {
  }

  // ---------------------------------------------------------------------------
  // The request context
  // ---------------------------------------------------------------------------

  /**
   * The helpers as mixed into a request handler: the request's Accept
   * header, the template collaborators, and the inbox entries the helpers
   * own (the layout and the captured content).
   */
  class RenderContext {
    const views: Views
    const engine: Engine
    const accept: Option<string>
    var layout: Option<string>
    var captures: map<string, seq<string>>

    /** A fresh request: no layout, nothing captured. */
    constructor (views: Views, engine: Engine, accept: Option<string>)
      ensures this.views == views && this.engine == engine && this.accept == accept
      ensures layout == None && captures == map[]
    {
      this.views := views;
      this.engine := engine;
      this.accept := accept;
      layout := None;
      captures := map[];
    }

    /** `layout(templ)`: sets the layout when `templ` is not nil, and returns the current one. */
    method Layout(templ: Option<string>) returns (current: Option<string>)
      modifies this`layout
      ensures layout == (if templ.Some? then templ else old(layout))
      ensures current == layout
    {
      if templ.Some? {
        layout := templ;
      }
      current := layout;
    }

    /**
     * `content_for(key) { block }` when `block` is given (capture: returns
     * the empty string), `content_for(key)` when it is not (emit).
     */
    method ContentFor(key: string, block: Option<string>) returns (r: string)
      modifies this`captures
      ensures block.Some? ==> r == EMPTY && captures == Capture(old(captures), key, block.value)
      ensures block.None? ==> (r, captures) == Emit(old(captures), key)
    {
      if key !in captures {
        captures := captures[key := []];
      }
      if block.Some? {
        captures := captures[key := captures[key] + [block.value]];
        r := EMPTY;
      } else {
        var parts := captures[key];
        assert parts == Captured(old(captures), key);
        captures := captures - {key};
        assert captures == old(captures) - {key};
        r := Concat(parts);
      }
    }

    /** `content_for?(key)`. */
    method HasContentFor(key: string) returns (b: bool)
      modifies this`captures
      ensures (b, captures) == Query(old(captures), key)
    {
      if key !in captures {
        captures := captures[key := []];
      }
      b := captures[key] != [];
    }

    /** `partial(path, locals) { inner }` for this request. */
    method Partial(path: string, locals: Locals, inner: Option<string>) returns (r: Result<string, RenderError>)
      ensures r == PartialOutput(views, engine, accept, path, locals, inner)
    {
      var file := Locate(path, FromOf(locals), accept, views);
      if file.Failure? {
        return Failure(file.error);
      }
      r := Success(engine(file.value, locals - {FROM}, inner));
    }

    /** `render(path, locals) { inner }` for this request, with the response it writes. */
    method Render(path: string, locals: Locals, inner: Option<string>) returns (r: Result<Response, RenderError>)
      ensures r == RenderResponse(views, engine, accept, layout, path, locals, inner)
    {
      var content := Partial(path, locals, inner);
      if content.Failure? {
        return Failure(content.error);
      }
      var body := content.value;
      if layout.Some? {
        var wrapped := Partial(layout.value, locals, Some(body));
        if wrapped.Failure? {
          return Failure(wrapped.error);
        }
        body := wrapped.value;
      }
      var page := Locate(path, FromOf(locals), accept, views);
      r := Success(Response(MimeTypeOf(page.value, views.mimeTypes), body));
    }
  }
}
