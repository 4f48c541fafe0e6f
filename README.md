# syro-tilt in Dafny

A model of the view helpers of syro-tilt, which render Tilt templates from Syro
routes. It covers these parts:

- **Template resolution** (`template_path`). A "fuzzy" name such as `posts/show` is joined to
  the template directory, or to the `from` directory when one is given. Every listed file that
  starts with the joined name is a candidate, and the candidates are sorted. The request's
  Accept header is split into media ranges, and the wildcard `*/*` ranges are dropped. The
  chosen file is the first candidate whose MIME type some range matches; failing that, the first
  candidate; failing that, none.
- **The MIME type of a template file** (`template_mime_type`). The type comes from the
  dot-separated segments of the file's base name, read from the right. The first segment that
  the extension table knows decides it, and `text/plain` is used when none is known.
- **The per-request helpers.** `layout` sets and reads the layout. `content_for` captures
  content under a key, or emits it and removes it; `content_for?` asks whether anything is
  captured. `partial` and `render` are composed from the resolver and the template engine:
  `render` wraps the page in the layout and writes the page's MIME type as the content type.
- **The cache** (`Syro::Tilt::Cache`). It is a store that only grows, used to memoize `template`
  and `template_path` on their argument tuples.

The modules are:

- `Strings`: the Ruby string operations the helpers use (`split`, `File.join`, `File.basename`,
  `downcase`, `Array#join`).
- `StringOrder`: the order of `String#<=>` and a sort.
- `AcceptHeader`: Accept parsing.
- `MimeTypes`: `template_mime_type`.
- `TemplateLocator`: `template_path`.
- `Rendering`: the registry functions, `partial`/`render`, and the `RenderContext` class that
  holds the layout and the captured content.
- `Cache`: the `MemoryStore` class and the `CachedHelpers` class.

These are parameters of the model rather than part of it:

- The file listing (`Dir.glob`), Rack's extension table (`Rack::Mime::MIME_TYPES`) and Rack's
  `Mime.match?` are fields of `TemplateLocator.Views`.
- The Tilt engine is a function from a template file, the locals and the text its `yield`
  returns, to the rendered text.
- Building a template object (`template`) is a function that may fail.

`layout` follows Ruby truthiness: any non-nil argument sets the layout, including the empty
string.

## Model

| member | source | states |
|---|---|---|
| Strings.SplitOn | lib/syro/tilt.rb:61 | splitting on a character gives at least one field, and no field contains the separator |
| Strings.JoinSplit | lib/syro/tilt.rb:61 | joining the fields of a split with the separator gives back the split string |
| Strings.SplitJoin | lib/syro/tilt.rb:61 | splitting the separator-joined text of parts that lack the separator gives back exactly those parts |
| Strings.DropTrailingEmpty | lib/syro/tilt.rb:99 | Ruby's `split` without a limit (`Strings.RubySplit`, the field split followed by this) drops the empty fields at the end and only those: the result is a prefix, ends in a non-empty field, and everything dropped was empty |
| Strings.TrimLeft | lib/syro/tilt.rb:61 | the leading whitespace that `\s*` absorbs is removed: the result is a suffix, starts with a non-space, and only spaces were removed |
| Strings.TrimRight | lib/syro/tilt.rb:61-62 | the trailing whitespace is removed: the result is a prefix, ends with a non-space, and only spaces were removed |
| Strings.TrimLeftPadded | lib/syro/tilt.rb:61 | whitespace before text that starts with a non-space is exactly what is removed on the left |
| Strings.TrimRightPadded | lib/syro/tilt.rb:61-62 | whitespace after text that ends with a non-space is exactly what is removed on the right |
| Strings.Lower | lib/syro/tilt.rb:100 | `downcase` maps each ASCII capital to its small letter, keeps every other character, and leaves no ASCII capital |
| Strings.FileJoin | lib/syro/tilt.rb:56 | `File.join(dir, name)` ends with `name`. When `name` does not start with `/`, a `/` sits just before it, and what precedes `name` is `dir` plus `/` or `dir` itself (when `dir` already ends with `/`, whose own slashes are kept). When `name` starts with `/`, what precedes it is `dir` with its trailing slashes removed, so no `/` precedes `name`'s own |
| Strings.Basename | lib/syro/tilt.rb:99 | `File.basename` is the suffix after the last `/`: it holds no `/` and is preceded by one unless it is the whole path |
| Strings.ConcatSplit | lib/syro/tilt.rb:171 | `Array#join` (`Strings.Concat`) of two lists one after the other is the join of the first followed by the join of the second |
| StringOrder.LexLeTotal | lib/syro/tilt.rb:81 | any two strings are ordered one way or the other |
| StringOrder.LexLeTransitive | lib/syro/tilt.rb:81 | the string order is transitive |
| StringOrder.LexLeAntisymmetric | lib/syro/tilt.rb:81 | strings ordered both ways are equal |
| StringOrder.Insert | lib/syro/tilt.rb:81 | inserting into a sorted list keeps it sorted and adds exactly that one string |
| StringOrder.Sort | lib/syro/tilt.rb:79-81 | `sort` gives an ascending list that is a permutation of its input |
| AcceptHeader.TrimField | lib/syro/tilt.rb:61 | a comma-split field trimmed where the pattern's whitespace was keeps only characters of the field |
| AcceptHeader.TrimFieldPadding | lib/syro/tilt.rb:61 | the trimmed field is the field minus whitespace before it (only after a comma) and after it (only before a comma), and on those sides it neither starts nor ends with whitespace, so exactly the whitespace `\s*,\s*` absorbs is removed |
| AcceptHeader.HeaderParts | lib/syro/tilt.rb:61 | the header's comma-separated parts hold no comma, and the last part is not empty |
| AcceptHeader.UpTo | lib/syro/tilt.rb:62 | the text before the first occurrence of a character: a prefix without it, followed by it when shorter |
| AcceptHeader.MediaRange | lib/syro/tilt.rb:62 | the attribute of a part is nil exactly for an empty part; otherwise it is the part when there is no `;`, else the text before the first `;` without the whitespace before it |
| AcceptHeader.Parse | lib/syro/tilt.rb:58-71 | one media range per comma-separated part, in header order, each the attribute `MediaRange` gives for its part |
| AcceptHeader.RejectAny | lib/syro/tilt.rb:73-75 | no `*/*` range remains, and every other range keeps its multiplicity; `AcceptHeader.Accepts` is this applied to the parsed header |
| AcceptHeader.RejectAnyConcat | lib/syro/tilt.rb:75 | `reject!` keeps the header's order: rejecting from two lists one after the other is rejecting from each, one after the other |
| AcceptHeader.NoHeaderNoRanges | lib/syro/tilt.rb:58 | an absent header reads as the empty header, and both give no ranges |
| AcceptHeader.OnlyAnyRejectsAll | lib/syro/tilt.rb:73-75 | a header whose every range is `*/*` leaves no range to compare against |
| AcceptHeader.HeaderPartsOf | lib/syro/tilt.rb:61 | a header written from entries with any whitespace around its commas splits into the entries without that whitespace |
| AcceptHeader.ParseHeader | lib/syro/tilt.rb:58-71 | a header written from entries, with any whitespace around the commas and before each `;` and with or without parameters, parses back to exactly the entries' media ranges, in order |
| MimeTypes.Reversed | lib/syro/tilt.rb:99 | `reverse`: the element at each position is the one at the mirrored position |
| MimeTypes.Lookups | lib/syro/tilt.rb:99-100 | `map`: each segment's table entry, by its lower-cased key with a dot, at the segment's position |
| MimeTypes.Compact | lib/syro/tilt.rb:101 | `compact`: exactly the present values, and a present first value comes first |
| MimeTypes.RightmostKnown | lib/syro/tilt.rb:99-101 | the index of the rightmost segment that the table knows; none exactly when the table knows no segment |
| MimeTypes.FirstFoundIsRightmost | lib/syro/tilt.rb:99-101 | the first type produced by the reverse/map/compact pipeline is the table's entry for the rightmost known segment, and there is none when no segment is known |
| MimeTypes.MimeTypeOfRightmost | lib/syro/tilt.rb:98-102 | `MimeTypes.MimeTypeOf`, the source's pipeline, gives a file's type as the table's entry for the rightmost known segment of its base name (so `.erb` lets `.html` decide), else `text/plain` |
| TemplateLocator.Filter | lib/syro/tilt.rb:79-80 | the kept files all start with the prefix, and every file that does is kept as often as it is listed |
| TemplateLocator.Candidates | lib/syro/tilt.rb:79-81 | the candidates are sorted and are exactly the listed files that start with the joined name, with their multiplicities; `TemplateLocator.CandidatesFor` applies this to the searched directory's listing |
| TemplateLocator.AnyMatch | lib/syro/tilt.rb:88-90 | `any?` succeeds with whether some range matches the type; it fails exactly when a nil range is reached before any match |
| TemplateLocator.FindAccepted | lib/syro/tilt.rb:85-90 | `find` returns the index of the first candidate whose type some range matches, or none when no candidate matches; it raises exactly when `any?` reaches a nil range for some candidate before any earlier candidate matched, so it always succeeds when no range is nil |
| TemplateLocator.TemplatePath | lib/syro/tilt.rb:54-92 | resolves to nothing exactly when there is no candidate; a file it resolves to is a listed file that starts with the joined name; the directory searched (`TemplateLocator.Directory`) is `from`, or the template directory when `from` is nil |
| TemplateLocator.SelectsFirstAccepted | lib/syro/tilt.rb:85-91 | with no nil range, resolution picks the first sorted candidate the header accepts, else the first candidate |
| TemplateLocator.OnlyAnyLikeNoHeader | lib/syro/tilt.rb:73-75 | a header of only `*/*` ranges resolves exactly as no header does |
| TemplateLocator.NoHeaderFirstCandidate | test/syro_tilt_test.rb:22-32 | without an Accept header the first sorted candidate is chosen |
| Rendering.Capture | lib/syro/tilt.rb:163-169 | capture mode appends the block's string after those already captured under the key and leaves every other key as it was |
| Rendering.Emit | lib/syro/tilt.rb:170-171 | emit mode returns the key's captures joined in capture order, and removes that key and no other |
| Rendering.Query | lib/syro/tilt.rb:182-187 | `content_for?` is true exactly when something is captured under the key; it changes no key's captures and only adds an empty entry |
| Rendering.EmitAfterCaptures | test/syro_tilt_test.rb:121-127 | emitting after a series of captures returns the earlier captures followed by each new string, in capture order |
| Rendering.EmitConsumes | test/syro_tilt_test.rb:129-137 | a second emit in a row returns the empty string, and `content_for?` is then false |
| Rendering.QueryKeepsCaptures | lib/syro/tilt.rb:182-187 | asking never changes what any key emits afterwards |
| Rendering.Locate | lib/syro/tilt.rb:119 | the file handed to Tilt is the resolver's answer; there is none (an error, not empty text) exactly when there is no candidate |
| Rendering.PartialOutput | lib/syro/tilt.rb:118-120 | `partial` succeeds exactly when the name resolves under the `from` local (`Rendering.FromOf`); the engine gets the locals without `from`, plus the block's text |
| Rendering.RenderResponse | lib/syro/tilt.rb:143-149 | the content type is the MIME type of the page's file; without a layout it succeeds exactly when the page's partial does and the body is that partial; with one, it succeeds exactly when the page's partial and then the layout's partial around it do, and the body is the layout's partial with the page's text as its block |
| Rendering.ContentTypeIgnoresLayout | lib/syro/tilt.rb:145-147 | a layout changes only the body, never the content type |
| Rendering.RenderContext.constructor | test/syro_tilt_test.rb:36-38 | a fresh request has no layout and nothing captured |
| Rendering.RenderContext.Layout | lib/syro/tilt.rb:129-132 | a non-nil argument replaces the layout, and nil leaves it; the current layout is returned |
| Rendering.RenderContext.ContentFor | lib/syro/tilt.rb:162-173 | with a block, captures as `Capture` does and returns the empty string; without one, emits as `Emit` does |
| Rendering.RenderContext.HasContentFor | lib/syro/tilt.rb:182-187 | answers and updates the registry as `Query` does |
| Rendering.RenderContext.Partial | lib/syro/tilt.rb:118-120 | returns what `PartialOutput` specifies for this request's header |
| Rendering.RenderContext.Render | lib/syro/tilt.rb:143-149 | returns the response `RenderResponse` specifies for the current layout |
| Cache.MemoryStore.constructor | lib/syro/tilt/cache.rb:10-13 | a new store is empty |
| Cache.MemoryStore.Fetch | lib/syro/tilt/cache.rb:15-21 | a hit returns the stored value without computing and changes nothing; a miss computes once and stores the value, but only when the computation succeeds; no entry is ever removed or replaced, and no key other than the fetched one is added |
| Cache.CachedHelpers.constructor | lib/syro/tilt/cache.rb:24-25 | both stores start empty and distinct, and every stored entry agrees with the uncached helper |
| Cache.CachedHelpers.Template | lib/syro/tilt/cache.rb:38-42 | the cached `template` answers what building the template answers, keeps every entry sound, and adds at most the entry for its path |
| Cache.CachedHelpers.TemplatePathCached | lib/syro/tilt/cache.rb:45-49 | the cached resolver answers exactly what the resolver does; only the whole (name, directory, header) tuple is added as a key, so lookups that differ in any one of them are independent |
| Cache.CachedHelpers.LookupThenFetch | test/syro_tilt_test.rb:173-177 | once a lookup has resolved, fetching the same tuple again returns that answer, and the whole pair computes at most once |

## Left out

- Quality values: the source parses each `q=` parameter into a float and never uses it, so ranges carry no quality.
- The template engine is a parameter. Tilt's compilation, `template_options` and `Tilt.template_for` are not part of this model.
- A missing template file makes Tilt raise `Errno::ENOENT`. The model treats it as a failing `load` parameter.
- The filesystem is `Views.glob`: the listing of a directory is whatever that function returns, with directories included if it lists them.
- Rack is a parameter. The extension table and `Rack::Mime.match?` are `Views.mimeTypes` and `Views.matches`; the matcher is only required to be a function.
- An empty comma-separated part, as in `a,,b`, parses to a nil media range. The source then calls `split` on nil inside Rack and raises. The model returns the `NilMediaRange` error once `any?` reaches such a range.
- The response object is not modelled. `render` returns the content type and the body it would write to `res`.
- Rendering.RenderResponse: the source resolves the page a second time to pick the content type. Resolution is a function of the same arguments, so the model reuses the first result.
- Values of locals and captured content are strings. Keys are strings rather than Ruby symbols.
- A block that itself calls `content_for` while being captured is not modelled: the block's text is an argument, evaluated beforehand.
- Rendering.PartialOutput: the engine is a pure function of the file, the locals and the block's text, so a template cannot call back into the helpers while it renders. In the source a template renders against `self` and may call `layout`, `content_for`, `content_for?` or `partial`. A page can therefore capture content that its layout later emits, or set the layout that `render` reads after the page has rendered. The model does not capture those effects of rendering on the request's layout and captured content.
- Rendering.FromOf: `partial` deletes `:from` from the caller's locals hash in place. The model reads `from` without changing the caller's locals and hands the engine a copy without it; `render` passes copies to `partial`, so only a direct caller of `partial` would see the difference.
- Strings.Lower: `downcase` is modelled for ASCII letters only; Ruby also folds non-ASCII letters.
- Strings.Basename: for a path ending in `/`, Ruby's `File.basename` drops the trailing slash and the model gives the empty string. The candidates' MIME types are taken from listed file names, which do not end in `/`.
- StringOrder.LexLe compares characters, where Ruby compares bytes. For UTF-8 text the two orders agree.
- The cache's `Mutex` is not modelled: fetches are sequential calls.
- Module wiring is not modelled: `Deck.include`, `Tilt.prepend` and the module-level store instances.
- Cache.CachedHelpers.TemplatePathCached takes the Accept header explicitly and keys on (name, directory, header). The source's wrapper differs in two ways: it declares three parameters, while `partial` calls `template_path` with two; and it passes all three to a base method that takes at most two and reads the header from `env`. The model follows the intended design, where the resolver depends on the header and the key holds it.
- Cache.MemoryStore.Fetch: the source's `fetch(key)` with no block raises on a miss. The model always receives a computation.
