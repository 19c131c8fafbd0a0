/** The application controller: the page state that the editor, the controls and the
    compiler's results act on, and the handlers that change it.

    The Graphviz compiler, the XML parser and serialiser, image rasterisation, the LZString
    compressor, fetch and the clipboard helper are foreign functions gathered in an Env.
    Time is a millisecond clock; each timer channel holds at most one pending timer (see the
    Timers module). A render runs as one step: load, compile, present, the `finally`, and
    then, for png, the rasterisation callback. */
module App {
  import opened Wrappers
  import opened UriEncoding
  import opened Timers
  import opened UrlState
  import opened OptionList

  // ---------------------------------------------------------------- errors

  /** A thrown value as show_error reads it: its message property, None when undefined */
  datatype Error = Error(message: Option<string>)

  const DefaultMessage := "An error occurred while processing the graph input."
  const ShareFailedMessage := "Could not generate shareable URL. The content might be too large even after compression."

  /** The text show_error puts in the error container */
  function ErrorText(e: Error): (m: string)
    ensures e.message.Some? ==> m == e.message.value
    ensures e.message.None? ==> m == DefaultMessage
  {
    match e.message
    case Some(message) => message
    case None => DefaultMessage
  }

  /** A call that returns normally or throws */
  datatype Completion<T> = Normal(value: T) | Throw(error: Error)

  // ---------------------------------------------------------------- foreign functions

  /** The documentElement of a parsed SVG document */
  datatype SvgElement = SvgElement(xml: string)

  /** The options object handed to graphviz.dot: the engine, and the format unless it is svg
      or png */
  datatype CompileRequest = CompileRequest(source: string, engine: string, format: Option<string>)

  /** A fetch response: res.ok and the body res.text() resolves to */
  datatype Response = Response(ok: bool, body: string)

  datatype Env = Env(
    loadError: Option<Error>,                  // a rejection of Graphviz.load()
    dot: CompileRequest -> Completion<string>, // graphviz.dot
    parse: string -> Option<SvgElement>,       // DOMParser: the documentElement, if any
    serialize: SvgElement -> string,           // XMLSerializer.serializeToString
    rasterize: string -> Completion<string>,   // svgXmlToImage: the png's src, or the error
    compress: string -> Completion<string>,    // LZString.compressToEncodedURIComponent
    decompress: string -> Option<string>,      // LZString.decompressFromEncodedURIComponent
    fetch: string -> Completion<Response>,     // fetch(url) then res.text()
    copyToClipboard: Url -> bool)              // copyToClipboard's result

  // ---------------------------------------------------------------- render dispatch

  /** What renderGraph hands to updateOutput: a parsed SVG, or { output } for text formats */
  datatype RenderResult = SvgResult(svg: SvgElement) | TextResult(output: string)

  predicate IsImageFormat(format: string) {
    format == "svg" || format == "png"
  }

  /** The call shape per format: svg and png compile with the engine alone; any other format
      is passed on to the compiler */
  function RequestFor(source: string, engine: string, format: string): (r: CompileRequest)
    ensures r.source == source && r.engine == engine
    ensures r.format.None? <==> IsImageFormat(format)
    ensures r.format.Some? ==> r.format.value == format
  {
    if IsImageFormat(format) then CompileRequest(source, engine, None)
    else CompileRequest(source, engine, Some(format))
  }

  /** The body of renderGraph's load callback up to updateOutput: what the load or the compiler
      threw, or the result (None for a null documentElement) */
  function Compile(env: Env, source: string, engine: string, format: string): (r: Completion<Option<RenderResult>>)
    ensures env.loadError.Some? ==> r == Throw(env.loadError.value)
    ensures env.loadError.None? ==> (r.Throw? <==> env.dot(RequestFor(source, engine, format)).Throw?)
    ensures r.Normal? && r.value.Some? ==> (r.value.value.SvgResult? <==> IsImageFormat(format))
    ensures r.Normal? && !IsImageFormat(format) ==> r.value == Some(TextResult(env.dot(RequestFor(source, engine, format)).value))
  {
    if env.loadError.Some? then Throw(env.loadError.value)
    else match env.dot(RequestFor(source, engine, format))
      case Throw(e) => Throw(e)
      case Normal(out) =>
        if IsImageFormat(format) then
          match env.parse(out)
          case None => Normal(None)
          case Some(el) => Normal(Some(SvgResult(el)))
        else Normal(Some(TextResult(out)))
  }

  /** What the compile gives when the library loaded: the compiler's own exception, or for svg
      and png the parsed document element (None when it is null) */
  lemma CompileOutcome(env: Env, source: string, engine: string, format: string)
    requires env.loadError.None?
    ensures var out := env.dot(RequestFor(source, engine, format));
            && (out.Throw? ==> Compile(env, source, engine, format) == Throw(out.error))
            && (out.Normal? && IsImageFormat(format) ==>
                  Compile(env, source, engine, format) ==
                    Normal(match env.parse(out.value) case None => None case Some(el) => Some(SvgResult(el))))
  {
  }

  /** The three presentation branches of updateOutput */
  datatype Branch = VectorView | RasterView | TextView

  function BranchFor(format: string, raw: bool): (b: Branch)
    ensures b == VectorView <==> format == "svg" && !raw
    ensures b == RasterView <==> format == "png"
    ensures b == TextView <==> (format != "svg" || raw) && format != "png"
  {
    if format == "svg" && !raw then VectorView
    else if format == "png" then RasterView
    else TextView
  }

  /** The status after a share URL was made, by whether the clipboard took it */
  function ShareMessage(copied: bool): (m: string)
    ensures copied <==> m == "Share URL copied to clipboard!"
  {
    if copied then "Share URL copied to clipboard!" else "Share URL generated."
  }

  const SvgUrlPrefix := "data:image/svg+xml;charset=utf-8,"

  /** The download link of the svg branch: the serialised SVG, percent-encoded, in a data URL */
  function SvgDataUrl(source: string): string {
    SvgUrlPrefix + EncodeURIComponent(source)
  }

  /** The data URL starts with the SVG media type and its payload decodes to the document */
  lemma SvgDataUrlDecodes(source: string)
    ensures var url := SvgDataUrl(source);
            && |url| >= |SvgUrlPrefix| && url[..|SvgUrlPrefix|] == SvgUrlPrefix
            && DecodeURIComponent(url[|SvgUrlPrefix|..]) == Some(source)
  {
    DecodeEncode(source);
    assert SvgDataUrl(source)[|SvgUrlPrefix|..] == EncodeURIComponent(source);
  }

  // ---------------------------------------------------------------- the review panel

  /** What the panel's <a> wraps: the SVG itself, or the rasterised png */
  datatype AnchorContent = SvgView(svg: SvgElement) | PngImage(src: string)

  /** A child of the review panel: the #text div, an <a> around the output, or another
      element of the page (the error container and the like) */
  datatype PanelChild = TextDiv(content: string) | Anchor(view: AnchorContent) | Fixed(id: string)

  datatype Kind = TextKind | AnchorKind

  predicate IsKind(c: PanelChild, k: Kind) {
    match k
    case TextKind => c.TextDiv?
    case AnchorKind => c.Anchor?
  }

  /** Where querySelector finds the kind: the first child of that kind, |ps| when none is */
  function FirstOfKind(ps: seq<PanelChild>, k: Kind): (i: nat)
    ensures i <= |ps|
    ensures i < |ps| ==> IsKind(ps[i], k)
    ensures forall j :: 0 <= j < i ==> !IsKind(ps[j], k)
  {
    if ps == [] then 0
    else if IsKind(ps[0], k) then 0
    else
      var i := 1 + FirstOfKind(ps[1..], k);
      assert forall j :: 1 <= j < i ==> ps[j] == ps[1..][j - 1];
      i
  }

  /** querySelector for the kind, then removeChild when there is one */
  function RemoveFirst(ps: seq<PanelChild>, k: Kind): seq<PanelChild> {
    if ps == [] then []
    else if IsKind(ps[0], k) then ps[1..]
    else [ps[0]] + RemoveFirst(ps[1..], k)
  }

  /** The first child of that kind goes, the others stay in order; without one, nothing
      changes */
  lemma RemoveFirstSpec(ps: seq<PanelChild>, k: Kind)
    ensures FirstOfKind(ps, k) == |ps| ==> RemoveFirst(ps, k) == ps
    ensures FirstOfKind(ps, k) < |ps| ==>
              RemoveFirst(ps, k) == ps[..FirstOfKind(ps, k)] + ps[FirstOfKind(ps, k) + 1..]
  {
    if FirstOfKind(ps, k) == |ps| {
      RemoveAbsent(ps, k);
    } else {
      RemovePresent(ps, k, FirstOfKind(ps, k));
    }
  }

  lemma {:induction false} RemoveAbsent(ps: seq<PanelChild>, k: Kind)
    requires FirstOfKind(ps, k) == |ps|
    ensures RemoveFirst(ps, k) == ps
  {
    if ps != [] {
      RemoveAbsent(ps[1..], k);
      assert ps == [ps[0]] + ps[1..];
    }
  }

  lemma {:induction false} RemovePresent(ps: seq<PanelChild>, k: Kind, i: nat)
    requires i == FirstOfKind(ps, k) && i < |ps|
    ensures RemoveFirst(ps, k) == ps[..i] + ps[i + 1..]
  {
    if i > 0 {
      var tail := ps[1..];
      RemovePresent(tail, k, i - 1);
      assert ps[..i] == [ps[0]] + tail[..i - 1];
      assert ps[i + 1..] == tail[i..];
    }
  }

  /** Clearing the output slot removes one child, of that kind, when there is one, and nothing
      else */
  lemma RemoveFirstCounts(ps: seq<PanelChild>, k: Kind)
    ensures FirstOfKind(ps, k) < |ps| ==> multiset(ps) == multiset(RemoveFirst(ps, k)) + multiset{ps[FirstOfKind(ps, k)]}
    ensures FirstOfKind(ps, k) == |ps| <==> forall c :: c in ps ==> !IsKind(c, k)
  {
    var i := FirstOfKind(ps, k);
    if i < |ps| {
      RemovePresent(ps, k, i);
      SpliceOut(ps, i);
      assert ps[i] in ps;
    } else {
      forall c | c in ps ensures !IsKind(c, k) {
        var j :| 0 <= j < |ps| && ps[j] == c;
      }
    }
  }

  /** Cutting one element out of a sequence takes exactly that element out of its multiset */
  lemma SpliceOut(ps: seq<PanelChild>, i: nat)
    requires i < |ps|
    ensures multiset(ps) == multiset(ps[..i] + ps[i + 1..]) + multiset{ps[i]}
  {
    assert ps == ps[..i] + [ps[i]] + ps[i + 1..];
  }

  /** The output slot emptied: the #text div and the <a>, whichever are there */
  function Cleared(ps: seq<PanelChild>): seq<PanelChild> {
    RemoveFirst(RemoveFirst(ps, TextKind), AnchorKind)
  }

  /** What the text branch shows: the serialised SVG in raw mode, the compiler's output for
      the other formats */
  function ResultText(res: RenderResult, env: Env): string {
    match res
    case SvgResult(svg) => Serialize(env, svg)
    case TextResult(output) => output
  }

  // The foreign calls as the controller makes them. Applying them inside functions keeps
  // their results independent of the page state.

  /** XMLSerializer.serializeToString */
  function Serialize(env: Env, svg: SvgElement): string {
    env.serialize(svg)
  }

  /** svgXmlToImage on the serialised SVG: the png's src, or the error */
  function PngOf(env: Env, svg: SvgElement): Completion<string> {
    env.rasterize(Serialize(env, svg))
  }

  /** LZString.compressToEncodedURIComponent */
  function Compress(env: Env, text: string): Completion<string> {
    env.compress(text)
  }

  /** LZString.decompressFromEncodedURIComponent, with null read as "" */
  function Decompress(env: Env, compressed: string): string {
    match env.decompress(compressed)
    case Some(t) => t
    case None => ""
  }

  /** fetch(url) and res.text() */
  function Fetch(env: Env, url: string): Completion<Response> {
    env.fetch(url)
  }

  /** copyToClipboard: whether the clipboard took the URL */
  function CopyToClipboard(env: Env, url: Url): bool {
    env.copyToClipboard(url)
  }

  // ---------------------------------------------------------------- history

  /** The state object updateState pushes */
  function PushedState(text: string, engine: string): HistoryState {
    HistoryState(Some(EncodeURIComponent(text)), Some(engine))
  }

  /** Going back to a pushed entry gives onpopstate a content that decodes to the text */
  lemma PushedStateDecodes(text: string, engine: string)
    ensures var s := PushedState(text, engine);
            s.content.Some? && DecodeURIComponent(s.content.value) == Some(text) && s.engine == Some(engine)
  {
    DecodeEncode(text);
  }

  // ---------------------------------------------------------------- a render

  /** The part of the page that show_error, updateOutput and renderGraph change */
  datatype Page = Page(status: StatusLine, working: bool, failed: bool, errorNodes: seq<string>,
                       panel: seq<PanelChild>, downloadHref: string, downloadName: string,
                       rawEnabled: bool, history: seq<HistoryEntry>, location: Url)

  /** show_error(e) at time now */
  function Failed(p: Page, now: nat, e: Error): Page {
    p.(status := Timers.ShowStatus(now, "error", 500), working := false, failed := true,
       errorNodes := [ErrorText(e)])
  }

  /** The three ways updateOutput presents a result in the emptied output slot: the SVG
      inside the download link, nothing yet for png, or a #text div */
  function Presented(p: Page, res: RenderResult, branch: Branch, env: Env): Page
    requires branch != TextView ==> res.SvgResult?
  {
    match branch
    case VectorView =>
      p.(panel := p.panel + [Anchor(SvgView(res.svg))],
         downloadHref := SvgDataUrl(Serialize(env, res.svg)), downloadName := "graphviz.svg")
    case RasterView => p
    case TextView => p.(panel := p.panel + [TextDiv(ResultText(res, env))])
  }

  /** updateState: push a state carrying the text and the engine, under the URL built from them */
  function Recorded(p: Page, text: string, engine: string): Page {
    var url := StateUrl(p.location, text, engine);
    p.(location := url, history := p.history + [HistoryEntry(Some(PushedState(text, engine)), url)])
  }

  /** updateOutput(result) with this editor text, engine, format and raw checkbox: the raw
      checkbox is enabled for svg only and the output slot emptied; a null result stops
      there, any other leaves the working and error states, is presented and recorded */
  function Output(p: Page, result: Option<RenderResult>, env: Env, text: string, engine: string,
                  format: string, raw: bool): Page
    requires result.Some? ==> (result.value.SvgResult? <==> IsImageFormat(format))
  {
    var q := p.(rawEnabled := format == "svg", panel := Cleared(p.panel));
    match result
    case None => q
    case Some(res) =>
      Recorded(Presented(q.(working := false, failed := false), res, BranchFor(format, raw), env), text, engine)
  }

  /** updateOutput enables the raw checkbox for svg only and always empties the output slot; a
      null result changes nothing else, and any other result leaves the working and error
      states, adds exactly one child per branch and pushes one history entry */
  lemma OutputSpec(p: Page, result: Option<RenderResult>, env: Env, text: string, engine: string,
                   format: string, raw: bool)
    requires result.Some? ==> (result.value.SvgResult? <==> IsImageFormat(format))
    ensures var q := Output(p, result, env, text, engine, format, raw);
            && (q.rawEnabled <==> format == "svg")
            && q.status == p.status && q.errorNodes == p.errorNodes
            && (result.None? ==>
                  && q.panel == Cleared(p.panel) && q.working == p.working && q.failed == p.failed
                  && q.history == p.history && q.location == p.location
                  && q.downloadHref == p.downloadHref && q.downloadName == p.downloadName)
            && (result.Some? ==>
                  && !q.working && !q.failed
                  && q.location == StateUrl(p.location, text, engine)
                  && q.history == p.history + [HistoryEntry(Some(PushedState(text, engine)), q.location)])
            && (result.Some? && BranchFor(format, raw) == VectorView ==>
                  && q.panel == Cleared(p.panel) + [Anchor(SvgView(result.value.svg))]
                  && q.downloadHref == SvgDataUrl(Serialize(env, result.value.svg)) && q.downloadName == "graphviz.svg")
            && (result.Some? && BranchFor(format, raw) == RasterView ==>
                  && q.panel == Cleared(p.panel)
                  && q.downloadHref == p.downloadHref && q.downloadName == p.downloadName)
            && (result.Some? && BranchFor(format, raw) == TextView ==>
                  && q.panel == Cleared(p.panel) + [TextDiv(ResultText(result.value, env))]
                  && q.downloadHref == p.downloadHref && q.downloadName == p.downloadName)
  {
  }

  /** The load callback's try/catch: show_error for what the load or the compiler threw,
      updateOutput for a result */
  function Loaded(p: Page, compiled: Completion<Option<RenderResult>>, env: Env, now: nat, text: string,
                  engine: string, format: string, raw: bool): Page
    requires compiled.Normal? && compiled.value.Some? ==> (compiled.value.value.SvgResult? <==> IsImageFormat(format))
  {
    match compiled
    case Throw(e) => Failed(p, now, e)
    case Normal(result) => Output(p, result, env, text, engine, format, raw)
  }

  /** The SVG that updateOutput leaves to the png branch */
  function PendingImage(compiled: Completion<Option<RenderResult>>, format: string, raw: bool): Option<SvgElement>
    requires compiled.Normal? && compiled.value.Some? ==> (compiled.value.value.SvgResult? <==> IsImageFormat(format))
  {
    if compiled.Normal? && compiled.value.Some? && BranchFor(format, raw) == RasterView then
      Some(compiled.value.value.svg)
    else None
  }

  /** renderGraph's `finally` at time now, then the png callback for the pending SVG: the
      image goes into the download link and the panel, or its error is shown */
  function Settled(p: Page, pending: Option<SvgElement>, env: Env, now: nat): Page {
    var q := p.(status := Timers.ShowStatus(now, "done", 500), working := false);
    match pending
    case None => q
    case Some(svg) => Imaged(q, svg, env, now)
  }

  /** The png branch's callback once svgXmlToImage settles: the image goes into the download
      link and is appended to the panel, or its error is shown */
  function Imaged(p: Page, svg: SvgElement, env: Env, now: nat): Page {
    match PngOf(env, svg)
    case Throw(e) => Failed(p, now, e)
    case Normal(src) =>
      p.(panel := p.panel + [Anchor(PngImage(src))], downloadHref := src, downloadName := "graphviz.png")
  }

  /** The page after renderGraph at time now with this editor text, engine, format and raw
      checkbox: "working" on, "error" off and "rendering..." shown; then the load and compile
      goes to show_error or updateOutput, and the page settles */
  function Render(p: Page, env: Env, now: nat, text: string, engine: string, format: string, raw: bool): Page {
    var started := p.(status := Timers.ShowStatus(now, "rendering...", 0), working := true, failed := false);
    var compiled := Compile(env, text, engine, format);
    Settled(Loaded(started, compiled, env, now, text, engine, format, raw), PendingImage(compiled, format, raw), env, now)
  }

  /** A render always ends with "working" off and a status shown for 500 ms; the status reads
      "error" exactly when the png rasterisation failed, and the panel is in the error state
      exactly when the compile threw or that happened */
  lemma RenderSettles(p: Page, env: Env, now: nat, text: string, engine: string, format: string, raw: bool)
    ensures var q := Render(p, env, now, text, engine, format, raw);
            var c := Compile(env, text, engine, format);
            var rasterFailed := c.Normal? && c.value.Some? && format == "png" && PngOf(env, c.value.value.svg).Throw?;
            && !q.working && q.status.timer == Armed(now + 500)
            && q.status.text == (if rasterFailed then "error" else "done")
            && (q.failed <==> c.Throw? || rasterFailed)
  {
  }

  /** A compile that throws leaves the output, the download link, the raw checkbox and the
      history as they were, and puts the thrown message in the error container */
  lemma RenderThrown(p: Page, env: Env, now: nat, text: string, engine: string, format: string, raw: bool)
    requires Compile(env, text, engine, format).Throw?
    ensures var q := Render(p, env, now, text, engine, format, raw);
            && q.errorNodes == [ErrorText(Compile(env, text, engine, format).error)]
            && q.panel == p.panel && q.downloadHref == p.downloadHref && q.downloadName == p.downloadName
            && q.rawEnabled == p.rawEnabled && q.history == p.history && q.location == p.location
  {
  }

  /** A null documentElement empties the output slot and records nothing */
  lemma RenderNull(p: Page, env: Env, now: nat, text: string, engine: string, format: string, raw: bool)
    requires Compile(env, text, engine, format) == Normal(None)
    ensures var q := Render(p, env, now, text, engine, format, raw);
            && q.panel == Cleared(p.panel) && (q.rawEnabled <==> format == "svg")
            && q.errorNodes == p.errorNodes
            && q.downloadHref == p.downloadHref && q.downloadName == p.downloadName
            && q.history == p.history && q.location == p.location
  {
  }

  /** A result is recorded by exactly one new history entry; going back to it restores the
      text, and its URL names the engine and carries the text in its fragment */
  lemma RenderRecords(p: Page, env: Env, now: nat, text: string, engine: string, format: string, raw: bool)
    requires Compile(env, text, engine, format).Normal? && Compile(env, text, engine, format).value.Some?
    ensures var q := Render(p, env, now, text, engine, format, raw);
            && |q.history| == |p.history| + 1 && q.history[..|p.history|] == p.history
            && q.history[|p.history|].url == q.location
            && q.history[|p.history|].state.Some?
            && q.history[|p.history|].state.value.content.Some?
            && DecodeURIComponent(q.history[|p.history|].state.value.content.value) == Some(text)
            && DecodeURIComponent(q.location.fragment) == Some(text)
            && Get(q.location.query, "engine") == Some(engine)
            && (q.rawEnabled <==> format == "svg")
  {
    PushedStateDecodes(text, engine);
    StateUrlReads(p.location, text, engine);
    var q := Render(p, env, now, text, engine, format, raw);
    assert q.history == p.history + [HistoryEntry(Some(PushedState(text, engine)), StateUrl(p.location, text, engine))];
  }

  /** A result replaces what the output slot showed by exactly one child: the SVG in the
      download link, the text, or the rasterised image (nothing if rasterisation failed); the
      download link points at the SVG as a data URL or at the image, and is kept for text */
  lemma RenderShows(p: Page, env: Env, now: nat, text: string, engine: string, format: string, raw: bool)
    requires Compile(env, text, engine, format).Normal? && Compile(env, text, engine, format).value.Some?
    ensures var q := Render(p, env, now, text, engine, format, raw);
            var res := Compile(env, text, engine, format).value.value;
            && (BranchFor(format, raw) == VectorView ==>
                  && q.panel == Cleared(p.panel) + [Anchor(SvgView(res.svg))] && q.downloadName == "graphviz.svg"
                  && q.downloadHref[..|SvgUrlPrefix|] == SvgUrlPrefix
                  && DecodeURIComponent(q.downloadHref[|SvgUrlPrefix|..]) == Some(Serialize(env, res.svg)))
            && (BranchFor(format, raw) == TextView ==>
                  && q.panel == Cleared(p.panel) + [TextDiv(ResultText(res, env))]
                  && q.downloadHref == p.downloadHref && q.downloadName == p.downloadName)
            && (BranchFor(format, raw) == RasterView && PngOf(env, res.svg).Normal? ==>
                  && q.panel == Cleared(p.panel) + [Anchor(PngImage(PngOf(env, res.svg).value))]
                  && q.downloadHref == PngOf(env, res.svg).value && q.downloadName == "graphviz.png")
            && (BranchFor(format, raw) == RasterView && PngOf(env, res.svg).Throw? ==>
                  && q.panel == Cleared(p.panel) && q.errorNodes == [ErrorText(PngOf(env, res.svg).error)]
                  && q.downloadHref == p.downloadHref && q.downloadName == p.downloadName)
  {
    var res := Compile(env, text, engine, format).value.value;
    if BranchFor(format, raw) == VectorView {
      SvgDataUrlDecodes(Serialize(env, res.svg));
    }
  }

  /** The page after the startup block checked the engine and format parameters: a value that
      is not among the options is reported by show_error, the engine's first */
  function ParamErrors(p: Page, now: nat, engines: seq<string>, formats: seq<string>): Page {
    var e := Get(p.location.query, "engine");
    var f := Get(p.location.query, "format");
    var q := if e.Some? && e.value !in engines then Failed(p, now, Error(Some("invalid engine " + e.value + " selected")))
             else p;
    if f.Some? && f.value !in formats then Failed(q, now, Error(Some("Invalid format " + f.value + " selected")))
    else q
  }

  /** An invalid parameter shows "error" for 500 ms and leaves its message alone in the error
      container, the format's winning over the engine's; valid or absent parameters change
      nothing; the output, the download link and the history are never touched */
  lemma ParamErrorsSpec(p: Page, now: nat, engines: seq<string>, formats: seq<string>)
    ensures var q := ParamErrors(p, now, engines, formats);
            var e := Get(p.location.query, "engine");
            var f := Get(p.location.query, "format");
            var badEngine := e.Some? && e.value !in engines;
            var badFormat := f.Some? && f.value !in formats;
            && q.errorNodes == (if badFormat then ["Invalid format " + f.value + " selected"]
                                else if badEngine then ["invalid engine " + e.value + " selected"]
                                else p.errorNodes)
            && (badEngine || badFormat ==> q.status == Timers.ShowStatus(now, "error", 500) && !q.working && q.failed)
            && (!badEngine && !badFormat ==> q == p)
            && q.panel == p.panel && q.downloadHref == p.downloadHref && q.downloadName == p.downloadName
            && q.rawEnabled == p.rawEnabled && q.history == p.history && q.location == p.location
  {
  }

  /** Whether the startup chain renders at once: raw text, fetched text, or the editor's own */
  predicate RendersOnLoad(s: StartupSource, env: Env) {
    match s
    case RawSource(_) => true
    case RemoteSource(url) => Fetch(env, url).Normal? && Fetch(env, url).value.ok
    case EditorSource => true
    case _ => false
  }

  /** The text the startup chain puts in the editor with session.setValue, if any */
  function InitialText(s: StartupSource, env: Env): Option<string> {
    match s
    case RawSource(raw) => Some(raw)
    case CompressedSource(c) => Some(Decompress(env, c))
    case RemoteSource(url) =>
      if Fetch(env, url).Normal? && Fetch(env, url).value.ok then Some(Fetch(env, url).value.body) else None
    case HashSource(encoded) => DecodeURIComponent(encoded)
    case _ => None
  }

  /** session.setValue replacing before by after: the change handler re-arms the debounce
      timer unless both are empty */
  function AfterSetValue(timer: Timer, now: nat, before: string, after: string): Timer {
    if before != "" || after != "" then Rearm(now, DebounceDelay) else timer
  }

  // ---------------------------------------------------------------- the page

  /** The share field's display style */
  datatype Display = Unstyled | Inline | Hidden

  class Controller {
    var now: nat                     // the millisecond clock
    var renderTimer: Timer           // the debounce timer (lastHD)
    var page: Page                   // the status line, the review panel, the raw checkbox's state,
                                     // the location and the pushed history
    var rawChecked: bool
    var engines: seq<string>         // the engine select's option values
    var engineIndex: nat
    var formats: seq<string>         // the format select's option values
    var formatIndex: nat
    var text: string                 // the editor's document
    var shareDisplay: Display
    var shareUrl: Option<Url>        // the share field's value: a URL, or ''
    var shareLabel: string           // the share button's value
    var shareDisabled: bool

    /** Both selects have a selected option */
    ghost predicate Valid()
      reads this`engines, this`engineIndex, this`formats, this`formatIndex
    {
      engineIndex < |engines| && formatIndex < |formats|
    }

    /** engineEl.value */
    function Engine(): string
      reads this`engines, this`engineIndex
      requires engineIndex < |engines|
    {
      engines[engineIndex]
    }

    /** formatEl.value */
    function Format(): string
      reads this`formats, this`formatIndex
      requires formatIndex < |formats|
    {
      formats[formatIndex]
    }

    /** Where the startup block takes the initial text from */
    function Source(): StartupSource
      reads this`page, this`text
    {
      ResolveStartup(page.location.query, Hash(page.location), text)
    }

    /** What loading and compiling the editor text with the selected engine and format gives */
    function Compiled(env: Env): Completion<Option<RenderResult>>
      reads this`text, this`engines, this`engineIndex, this`formats, this`formatIndex
      requires Valid()
    {
      Compile(env, text, Engine(), Format())
    }

    constructor (engines: seq<string>, engineIndex: nat, formats: seq<string>, formatIndex: nat,
                 text: string, location: Url, panel: seq<PanelChild>)
      requires engineIndex < |engines| && formatIndex < |formats|
      ensures Valid() && this.engines == engines && this.engineIndex == engineIndex
      ensures this.formats == formats && this.formatIndex == formatIndex
      ensures this.text == text && now == 0 && renderTimer == Idle && !rawChecked
      ensures page == Page(StatusLine("", Idle), false, false, [], panel, "", "", true, [], location)
    {
      this.engines, this.engineIndex := engines, engineIndex;
      this.formats, this.formatIndex := formats, formatIndex;
      this.text := text;
      now, renderTimer := 0, Idle;
      page := Page(StatusLine("", Idle), false, false, [], panel, "", "", true, [], location);
      rawChecked := false;
      shareDisplay, shareUrl, shareLabel, shareDisabled := Unstyled, None, "Share", false;
    }

    // -------------------------------------------------------------- status and errors

    /** show_status(text, hide) */
    method ShowStatus(message: string, delay: nat)
      modifies this`page
      ensures page == old(page).(status := Timers.ShowStatus(now, message, delay))
    {
      page := page.(status := Timers.ShowStatus(now, message, delay));
    }

    /** show_error(e): status "error" for 500 ms, "working" off, "error" on, and the error
      container emptied down to one text node with the message */
    method ShowError(e: Error)
      modifies this`page
      ensures page == Failed(old(page), now, e)
    {
      ShowStatus("error", 500);
      page := page.(working := false, failed := true);
      page := page.(errorNodes := []);
      page := page.(errorNodes := page.errorNodes + [ErrorText(e)]);
    }

    // -------------------------------------------------------------- editor and timers

    /** The editor's change handler: cancel the pending render and arm a new one, as a
      Change event does to the debounce channel */
    method OnEditorChange()
      modifies this`renderTimer
      ensures renderTimer == Rearm(now, DebounceDelay) && renderTimer == Armed(now + 1500)
      ensures Step(Debounce(now, old(renderTimer), []), Change) == Debounce(now, renderTimer, [])
    {
      renderTimer := Rearm(now, DebounceDelay);
    }

    /** session.setValue(t): the document is replaced, and the change handler runs unless both
      the old and the new text are empty (empty edits raise no change event) */
    method SetText(t: string)
      modifies this`text, this`renderTimer
      ensures text == t
      ensures old(text) != "" || t != "" ==> renderTimer == Armed(now + DebounceDelay)
      ensures old(text) == "" && t == "" ==> renderTimer == old(renderTimer)
    {
      var changed := text != "" || t != "";
      text := t;
      if changed {
        OnEditorChange();
      }
    }

    /** One millisecond passes: the status line's hide timer and the debounce timer fire when
      due; the latter calls renderGraph. The debounce timer moves as a Tick event moves the
      debounce channel, so the channel's lemmas speak of the controller */
    method Tick(env: Env) returns (rendered: bool)
      requires Valid()
      modifies this`now, this`page, this`renderTimer
      ensures now == old(now) + 1
      ensures rendered <==> FiresAt(old(renderTimer), now)
      ensures renderTimer == if rendered then Idle else old(renderTimer)
      ensures Step(Debounce(old(now), old(renderTimer), []), Event.Tick) == Debounce(now, renderTimer, if rendered then [now] else [])
      ensures var ticked := old(page).(status := StatusTick(old(page).status, now));
              page == if rendered then Render(ticked, env, now, text, Engine(), Format(), rawChecked) else ticked
    {
      now := now + 1;
      page := page.(status := StatusTick(page.status, now));
      rendered := FiresAt(renderTimer, now);
      if rendered {
        renderTimer := Idle;
        RenderGraph(env);
      }
    }

    /** window.onpopstate: a state with content puts the decoded content in the editor; a null
      state or undefined content changes nothing */
    method OnPopState(state: Option<HistoryState>)
      modifies this`text, this`renderTimer
      ensures state.None? || state.value.content.None? ==> text == old(text) && renderTimer == old(renderTimer)
      ensures state.Some? && state.value.content.Some? && DecodeURIComponent(state.value.content.value).Some? ==>
                && text == DecodeURIComponent(state.value.content.value).value
                && renderTimer == AfterSetValue(old(renderTimer), now, old(text), text)
      ensures state.Some? && state.value.content.Some? && DecodeURIComponent(state.value.content.value).None? ==>
                text == old(text) && renderTimer == old(renderTimer)
    {
      if state.Some? && state.value.content.Some? {
        var decoded := DecodeURIComponent(state.value.content.value);
        if decoded.Some? {
          SetText(decoded.value);
        }
      }
    }

    // -------------------------------------------------------------- rendering

    /** updateState: the hash and the pushed state carry encodeURIComponent(text), the engine
      parameter carries the engine */
    method UpdateState()
      requires Valid()
      modifies this`page
      ensures page == Recorded(old(page), text, Engine())
    {
      var url := StateUrl(page.location, text, Engine());
      page := page.(history := page.history + [HistoryEntry(Some(PushedState(text, Engine())), url)]);
      page := page.(location := url);
    }

    /** updateOutput's first removals: the #text div, then the <a>, if present */
    method ClearOutput()
      modifies this`page
      ensures page == old(page).(panel := Cleared(old(page).panel))
    {
      page := page.(panel := RemoveFirst(page.panel, TextKind));
      page := page.(panel := RemoveFirst(page.panel, AnchorKind));
    }

    /** The three ways updateOutput presents a result in the emptied output slot. Returns the
      SVG the png branch still has to rasterise. */
    method Present(res: RenderResult, branch: Branch, env: Env) returns (pending: Option<SvgElement>)
      requires branch != TextView ==> res.SvgResult?
      modifies this`page
      ensures page == Presented(old(page), res, branch, env)
      ensures pending == if branch == RasterView then Some(res.svg) else None
    {
      pending := None;
      match branch {
        case VectorView =>
          page := page.(downloadHref := SvgDataUrl(Serialize(env, res.svg)), downloadName := "graphviz.svg");
          page := page.(panel := page.panel + [Anchor(SvgView(res.svg))]);
        case RasterView =>
          pending := Some(res.svg);
        case TextView =>
          page := page.(panel := page.panel + [TextDiv(ResultText(res, env))]);
      }
    }

    /** updateOutput(result): enable the raw checkbox for svg only, clear the output slot,
      stop on a null result, else present it and call updateState. Returns the SVG still to
      be rasterised by the png branch. */
    method UpdateOutput(result: Option<RenderResult>, env: Env) returns (pending: Option<SvgElement>)
      requires Valid()
      requires result.Some? ==> (result.value.SvgResult? <==> IsImageFormat(Format()))
      modifies this`page
      ensures page == Output(old(page), result, env, text, Engine(), Format(), rawChecked)
      ensures pending == PendingImage(Normal(result), Format(), rawChecked)
    {
      var branch := BranchFor(Format(), rawChecked);
      page := page.(rawEnabled := Format() == "svg");
      ClearOutput();
      pending := None;
      if result.Some? {
        pending := Publish(result.value, branch, env);
      }
    }

    /** updateOutput past the null check: the panel leaves the working and error states, the
      result is presented, and updateState records the text and engine */
    method Publish(res: RenderResult, branch: Branch, env: Env) returns (pending: Option<SvgElement>)
      requires Valid()
      requires branch != TextView ==> res.SvgResult?
      modifies this`page
      ensures page == Recorded(Presented(old(page).(working := false, failed := false), res, branch, env),
                               text, Engine())
      ensures pending == if branch == RasterView then Some(res.svg) else None
    {
      page := page.(working := false, failed := false);
      pending := Present(res, branch, env);
      UpdateState();
    }

    /** The png branch's callback, once svgXmlToImage settles */
    method ShowImage(svg: SvgElement, env: Env)
      modifies this`page
      ensures page == Imaged(old(page), svg, env, now)
    {
      var image := PngOf(env, svg);
      if image.Throw? {
        ShowError(image.error);
      } else {
        page := page.(downloadHref := image.value, downloadName := "graphviz.png");
        page := page.(panel := page.panel + [Anchor(PngImage(image.value))]);
      }
    }

    /** renderGraph: "working" on and "error" off, "rendering...", then load and compile; a
      throw goes to show_error and skips updateOutput; the `finally` always turns "working"
      off and shows "done" for 500 ms, so the status reads "done" even after a compile error
      (the error text stays in the error container); the png branch's rasterisation
      completes afterwards, appending the image or reporting its error */
    method RenderGraph(env: Env)
      requires Valid()
      modifies this`page
      ensures page == Render(old(page), env, now, text, Engine(), Format(), rawChecked)
    {
      var compiled := Compiled(env);
      page := page.(working := true, failed := false);
      ShowStatus("rendering...", 0);
      var pending := Load(compiled, env);
      Settle(pending, env);
    }

    /** The load callback's try/catch: show_error for a throw, else updateOutput. Returns the
      SVG left to the png branch. */
    method Load(compiled: Completion<Option<RenderResult>>, env: Env) returns (pending: Option<SvgElement>)
      requires Valid()
      requires compiled.Normal? && compiled.value.Some? ==> (compiled.value.value.SvgResult? <==> IsImageFormat(Format()))
      modifies this`page
      ensures page == Loaded(old(page), compiled, env, now, text, Engine(), Format(), rawChecked)
      ensures pending == PendingImage(compiled, Format(), rawChecked)
    {
      pending := None;
      if compiled.Throw? {
        ShowError(compiled.error);
      } else {
        pending := UpdateOutput(compiled.value, env);
      }
    }

    /** renderGraph's `finally`, then the png branch's callback for the SVG still pending */
    method Settle(pending: Option<SvgElement>, env: Env)
      modifies this`page
      ensures page == Settled(old(page), pending, env, now)
    {
      page := page.(working := false);
      ShowStatus("done", 500);
      if pending.Some? {
        ShowImage(pending.value, env);
      }
    }

    // -------------------------------------------------------------- controls

    /** Choosing an engine: the change listener renders with it */
    method SelectEngine(index: nat, env: Env)
      requires Valid() && index < |engines|
      modifies this`engineIndex, this`page
      ensures Valid() && engineIndex == index
      ensures page == Render(old(page), env, now, text, engines[index], Format(), rawChecked)
    {
      engineIndex := index;
      RenderGraph(env);
    }

    /** Choosing a format: the change listener renders with it */
    method SelectFormat(index: nat, env: Env)
      requires Valid() && index < |formats|
      modifies this`formatIndex, this`page
      ensures Valid() && formatIndex == index
      ensures page == Render(old(page), env, now, text, Engine(), formats[index], rawChecked)
    {
      formatIndex := index;
      RenderGraph(env);
    }

    /** Toggling the raw checkbox: the change listener renders with it */
    method ToggleRaw(checked: bool, env: Env)
      requires Valid()
      modifies this`rawChecked, this`page
      ensures rawChecked == checked
      ensures page == Render(old(page), env, now, text, Engine(), Format(), checked)
    {
      rawChecked := checked;
      RenderGraph(env);
    }

    // -------------------------------------------------------------- sharing

    /** copyShareURL: compress the text and show a URL holding exactly the compressed text,
      the engine and the format, then try the clipboard; if compression throws, hide and
      clear the field and report the error; the button ends enabled and labelled "Share" */
    method CopyShareURL(env: Env)
      requires Valid()
      modifies this`shareDisabled, this`shareLabel, this`shareDisplay, this`shareUrl, this`page
      ensures !shareDisabled && shareLabel == "Share"
      ensures Compress(env, text).Normal? ==>
                var url := ShareUrl(old(page).location, Compress(env, text).value, Engine(), Format());
                && shareDisplay == Inline && shareUrl == Some(url)
                && page == old(page).(status := Timers.ShowStatus(now, ShareMessage(CopyToClipboard(env, url)), 2000))
      ensures Compress(env, text).Throw? ==>
                && shareDisplay == Hidden && shareUrl == None
                && page == Failed(old(page), now, Error(Some(ShareFailedMessage)))
    {
      shareDisabled := true;
      var compressed := Compress(env, text);
      if compressed.Normal? {
        var url := ShareUrl(page.location, compressed.value, Engine(), Format());
        shareDisplay := Inline;
        shareUrl := Some(url);
        ShowStatus(ShareMessage(CopyToClipboard(env, url)), 2000);
      } else {
        ShowError(Error(Some(ShareFailedMessage)));
        shareDisplay := Hidden;
        shareUrl := None;
      }
      shareLabel := "Share";
      shareDisabled := false;
    }

    // -------------------------------------------------------------- startup

    /** The engine and format parameters: a value among the options selects the first option
      with it; any other value leaves the selection and is reported */
    method ApplyParams()
      requires Valid()
      modifies this`engineIndex, this`formatIndex, this`page
      ensures Valid()
      ensures var v := Get(page.location.query, "engine");
              && (v.Some? && v.value in engines ==>
                    engines[engineIndex] == v.value && forall j :: 0 <= j < engineIndex ==> engines[j] != v.value)
              && (v.None? || v.value !in engines ==> engineIndex == old(engineIndex))
      ensures var v := Get(page.location.query, "format");
              && (v.Some? && v.value in formats ==>
                    formats[formatIndex] == v.value && forall j :: 0 <= j < formatIndex ==> formats[j] != v.value)
              && (v.None? || v.value !in formats ==> formatIndex == old(formatIndex))
      ensures page == ParamErrors(old(page), now, engines, formats)
    {
      var params := page.location.query;
      if Has(params, "engine") {
        var engine := Get(params, "engine").value;
        var index := IndexOf(engines, engine);
        if index > -1 {
          engineIndex := index;
        } else {
          ShowError(Error(Some("invalid engine " + engine + " selected")));
        }
      }
      if Has(params, "format") {
        var format := Get(params, "format").value;
        var index := IndexOf(formats, format);
        if index > -1 {
          formatIndex := index;
        } else {
          ShowError(Error(Some("Invalid format " + format + " selected")));
        }
      }
    }

    /** The source chain of the startup block. A source that sets the editor text arms the
      debounce timer through the change handler, so raw text and fetched text are rendered
      at once and again when that timer fires */
    method LoadInitialText(env: Env)
      requires Valid()
      modifies this`text, this`renderTimer, this`page
      ensures InitialText(old(Source()), env).Some? ==>
                text == InitialText(old(Source()), env).value && renderTimer == AfterSetValue(old(renderTimer), now, old(text), text)
      ensures InitialText(old(Source()), env).None? ==> text == old(text) && renderTimer == old(renderTimer)
      ensures RendersOnLoad(old(Source()), env) ==> page == Render(old(page), env, now, text, Engine(), Format(), rawChecked)
      ensures old(Source()).RemoteSource? && Fetch(env, old(Source()).url).Throw? ==>
                page == Failed(old(page), now, Fetch(env, old(Source()).url).error)
      ensures old(Source()).RemoteSource? && Fetch(env, old(Source()).url).Normal? && !Fetch(env, old(Source()).url).value.ok ==>
                page == Failed(old(page), now, Error(Some(Fetch(env, old(Source()).url).value.body)))
      ensures !RendersOnLoad(old(Source()), env) && !old(Source()).RemoteSource? ==> page == old(page)
    {
      var source := Source();
      match source {
      case RawSource(raw) =>
        SetText(raw);
        RenderGraph(env);
      case CompressedSource(c) =>
        SetText(Decompress(env, c));
      case RemoteSource(url) =>
        var fetched := Fetch(env, url);
        if fetched.Throw? {
          ShowError(fetched.error);
        } else if !fetched.value.ok {
          ShowError(Error(Some(fetched.value.body)));
        } else {
          SetText(fetched.value.body);
          RenderGraph(env);
        }
      case HashSource(encoded) =>
        var decoded := DecodeURIComponent(encoded);
        if decoded.Some? {
          SetText(decoded.value);
        }
      case EditorSource =>
        RenderGraph(env);
      case NoSource =>
      }
    }

    /** The startup block: the engine and format parameters, then the source chain, which
      starts from the page the parameter checks left; whatever the source renders is rendered
      with the engine and format the parameters selected */
    method Startup(env: Env)
      requires Valid()
      modifies this`engineIndex, this`formatIndex, this`text, this`renderTimer, this`page
      ensures Valid()
      ensures var v := Get(old(page).location.query, "engine");
              && (v.Some? && v.value in engines ==> Engine() == v.value)
              && (v.None? || v.value !in engines ==> engineIndex == old(engineIndex))
      ensures var v := Get(old(page).location.query, "format");
              && (v.Some? && v.value in formats ==> Format() == v.value)
              && (v.None? || v.value !in formats ==> formatIndex == old(formatIndex))
      ensures InitialText(old(Source()), env).Some? ==>
                text == InitialText(old(Source()), env).value && renderTimer == AfterSetValue(old(renderTimer), now, old(text), text)
      ensures InitialText(old(Source()), env).None? ==> text == old(text) && renderTimer == old(renderTimer)
      ensures old(Source()).RawSource? ==> text == old(Source()).raw
      ensures old(Source()).EditorSource? ==> text == old(text)
      ensures var checked := ParamErrors(old(page), now, engines, formats);
              RendersOnLoad(old(Source()), env) ==> page == Render(checked, env, now, text, Engine(), Format(), rawChecked)
      ensures var checked := ParamErrors(old(page), now, engines, formats);
              old(Source()).RemoteSource? && Fetch(env, old(Source()).url).Throw? ==>
                page == Failed(checked, now, Fetch(env, old(Source()).url).error)
      ensures var checked := ParamErrors(old(page), now, engines, formats);
              old(Source()).RemoteSource? && Fetch(env, old(Source()).url).Normal? && !Fetch(env, old(Source()).url).value.ok ==>
                page == Failed(checked, now, Error(Some(Fetch(env, old(Source()).url).value.body)))
      ensures !RendersOnLoad(old(Source()), env) && !old(Source()).RemoteSource? ==>
                page == ParamErrors(old(page), now, engines, formats)
    {
      ParamErrorsSpec(page, now, engines, formats);
      ghost var source := Source();
      ghost var checked := ParamErrors(page, now, engines, formats);
      ApplyParams();
      assert page == checked && Source() == source;
      LoadInitialText(env);
    }
  }
}
