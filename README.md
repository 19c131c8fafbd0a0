# GraphvizOnline core, modelled in Dafny

GraphvizOnline is a browser page: the user edits a Graphviz graph description, the page
renders it with a WebAssembly build of Graphviz, and shows the result as an SVG, a PNG or
text (json, xdot, plain, ps, …). The address bar keeps the text in sync in two ways:
- Every successful render pushes a history entry whose fragment holds the percent-encoded
  text.
- The share button builds a link holding the LZString-compressed text, the engine and the
  format.

A second script replaces text labels of the rendered SVG that hold TeX formulas by
MathJax's rendering of them. It centres and scales each rendering over the label.

This project models the page controller (`app.js`) and the math typesetter
(`mathjax-support.js`) and proves properties of the model. It is split into these modules:

- `Wrappers`: `Option`.
- `UriEncoding`: `encodeURIComponent` and `decodeURIComponent` as ECMA-262 defines them.
  They percent-encode (section 2.1 of RFC 3986) the UTF-8 octets (RFC 3629) of every
  character outside the unreserved set. Decoding is partial (`None` where the function
  throws a URIError). The round trip is proved for every string.
- `Timers`: the two timer channels on a millisecond clock. The first is the status line's
  hide timer (`show_status`). The second is the 1500 ms debounce of editor changes. Arming
  a channel first cancels its pending timer.
- `UrlState`: query parameters with `URLSearchParams.get`/`set` semantics. It also holds the
  URL that `updateState` pushes, the share URL, and the startup chain that chooses where the
  editor text comes from.
- `OptionList`: the option lookup the page patches onto `HTMLOptionsCollection`, as a loop.
- `App`: the class `Controller`. Its fields are the clock, the debounce timer, the selects,
  the raw checkbox, the editor text, the share controls, and one `Page` record. The record
  holds what a render changes: the status line, the review panel's classes and children,
  the error container, the download link, whether the raw checkbox is enabled, the
  location and the pushed history. Its methods are the page's handlers.
  - Each handler's new page is stated as a function of the old one. `Render` is the page
    after `renderGraph`; lemmas beside it state what a render shows and records.
  - Foreign code is gathered in an `Env` of functions:
    - Failures are modelled where the source has them. Loading Graphviz, the compiler,
      the rasteriser, LZString's compression and `fetch` may throw.
    - `DOMParser` may give a null document element.
    - LZString's decompression may give null. The model reads null as "".
    - `XMLSerializer` is total.
    - The clipboard helper returns whether the copy succeeded.
- `TeX`: `extractFirstTeX` and the guard regular expression. Both are written out as the
  leftmost matches the three regular expressions find.
- `Typeset`: `typesetMathInGraphSvg`. The graph's SVG is the class `GraphSvg`, which holds a
  sequence of sibling nodes that `insertBefore`, `setAttribute` and `remove` update in
  place. The loop over the snapshot of text nodes is proved to produce what a pure pass
  function produces. Properties of the pass (position by position, idempotence) are lemmas
  about that function. MathJax's conversion and the number formatting of the transform
  attribute are parameters; `mjxReady()` is a boolean.

Behaviour worth knowing:
- Renders carry no sequence numbers. A slow render can overwrite a later one, and nothing
  discards stale results.
- The compiler gets only the engine for svg and png. Other formats are passed as a
  parameter.
- When compression fails, the share field is hidden and cleared, not left as it was.
- A failed fetch at startup is reported through `show_error`. A response that is not ok
  is reported with its body as the message; a rejected fetch with the rejection's own
  message.
- Raw text and fetched text are rendered at once at startup. Setting them also arms the
  debounce timer, so they are rendered a second time 1500 ms later.

## Model

| member | source | states |
|---|---|---|
| UriEncoding.HexDigit | app.js:216 | the digit written for a value below 16 reads back as that value |
| UriEncoding.Utf8RoundTrip | app.js:216 | decoding the UTF-8 octets of any scalar value gives it back; the lead octet's leading ones give the sequence length |
| UriEncoding.EncodeURIComponent | app.js:216 | the encoding is at least as long as the text and holds only unreserved characters and '%' |
| UriEncoding.DecodeEncode | app.js:216-220 | decodeURIComponent(encodeURIComponent(s)) == s for every string s |
| UriEncoding.EncodeInjective | app.js:216-220 | two texts with the same encoding are equal |
| UriEncoding.DecodePlain | app.js:308 | a string without '%' decodes to itself |
| UriEncoding.DecodeRejects | app.js:308 | a lone '%', a non-hex escape, a truncated sequence, an overlong form and an encoded surrogate all throw |
| UriEncoding.EncodeExample | app.js:216 | "a b" encodes to "a%20b" and U+00E9 to "%C3%A9" |
| Timers.Rearm | app.js:66-75 | a timer is armed exactly when the delay is non-zero, due delay milliseconds later |
| Timers.ShowStatus | app.js:66-75 | show_status shows the text, always cancels the old hide timer, arms a new one exactly when hide is non-zero |
| Timers.StatusPersists | app.js:66-75 | with a hide of 0 the text stays however much time passes |
| Timers.StatusHides | app.js:66-75 | with hide h > 0 the text stays for h - 1 ms and is "" from h ms on |
| Timers.StatusCountdown | app.js:71-73 | an armed hide timer empties the text when due and then stays idle |
| Timers.IdleStays | app.js:66-75 | without a pending hide timer the status line never changes |
| Timers.RunAppend | app.js:301-304 | running two event sequences one after the other is running their concatenation |
| Timers.Wait | app.js:301-304 | a pending debounce timer fires exactly once, exactly when due, and not before |
| Timers.WaitIdle | app.js:301-304 | without a pending debounce timer, time passes and nothing renders |
| Timers.BurstRendersOnce | app.js:301-304 | a burst of changes with gaps under 1500 ms renders exactly once, 1500 ms after the last change, if the final quiet lasts 1500 ms, and never otherwise |
| UrlState.Get | app.js:329-331 | get returns the value of a pair with the name, None exactly when no pair has it |
| UrlState.GetFirst | app.js:329-331 | the value get returns is that of the first pair with the name |
| UrlState.SetParam | app.js:219 | after set exactly one pair has the name and holds the value; every other name reads as before; a new name is appended |
| UrlState.SetParamInPlace | app.js:219 | set keeps the first pair with the name where it stood, with the new value, and drops the later ones; pairs of other names keep their order |
| UrlState.Hash | app.js:378 | location.hash is "" exactly for an empty fragment, else '#' before the fragment |
| UrlState.StateUrlReads | app.js:213-221 | the pushed URL keeps the address, its fragment decodes to the text, engine appears once with its value, other parameters are unchanged |
| UrlState.ShareUrlBySet | app.js:129-135 | clearing search and hash then setting compressed, engine, format gives a URL with exactly those three parameters in that order and no fragment |
| UrlState.ResolveStartup | app.js:354-382 | exactly one startup source in the order raw, compressed, url, hash longer than "#", non-empty editor; only raw and the editor render at once |
| UrlState.HistoryUrlRestores | app.js:378-379 | reloading a pushed URL takes the text from its fragment and decodes it back to the text |
| UrlState.ShareUrlRestores | app.js:357-359 | loading a share URL takes the compressed text, without rendering, and reads back the shared engine and format |
| OptionList.IndexOf | app.js:318-326 | the smallest index whose value equals the name, or -1 exactly when none does |
| App.ErrorText | app.js:82 | the error's message, or the fixed default when it has none |
| App.RequestFor | app.js:191-199 | svg and png compile with the engine alone; other formats pass the format on |
| App.Compile | app.js:184-200 | a load or compiler throw is the outcome; a text format gives { output }; an svg/png result is a parsed SVG |
| App.CompileOutcome | app.js:184-200 | once Graphviz loaded, a compiler throw is the outcome as thrown; svg and png give the parsed document element, None when it is null |
| App.BranchFor | app.js:249-294 | svg without raw is the vector view, png the raster view, everything else the text view |
| App.ShareMessage | app.js:140-144 | the status says "copied" exactly when the clipboard took the URL |
| App.SvgDataUrlDecodes | app.js:254 | the svg download link is the svg data-URL prefix followed by a payload that decodes to the serialised SVG |
| App.FirstOfKind | app.js:232-238 | querySelector's hit: the first child of that kind, or the end when there is none |
| App.RemoveFirstSpec | app.js:232-240 | the first child of the kind is removed and the others keep their order; without one nothing changes |
| App.RemoveFirstCounts | app.js:232-240 | removal takes out exactly one child, of that kind, if there is one |
| App.PushedStateDecodes | app.js:220 | the pushed state's content decodes to the text and its engine is the engine |
| App.Controller.constructor | app.js:49-64 | the initial page state: both selects valid, no pending timers, empty history |
| App.Controller.ShowStatus | app.js:66-75 | only the status line changes; it becomes show_status of the current time |
| App.Controller.ShowError | app.js:77-87 | the page becomes Failed: status "error" hidden after 500 ms, working off, error on, one text node with the message, nothing else changed |
| App.Controller.OnEditorChange | app.js:301-304 | the debounce timer is re-armed 1500 ms ahead, as a change event moves the debounce channel of `Timers` |
| App.Controller.SetText | app.js:301-304 | setValue replaces the text and arms the debounce unless old and new text are both empty |
| App.Controller.Tick | app.js:301-304 | one millisecond passes; the hide timer fires when due; the debounce timer moves as a tick moves the debounce channel of `Timers`, so it fires exactly when due, and then the page is the render of the ticked page, else only the status line ticks |
| App.Controller.OnPopState | app.js:306-310 | a state with content sets the decoded text and arms the debounce as setValue does; a null state, undefined content or an undecodable one changes nothing |
| App.Controller.UpdateState | app.js:213-221 | the page becomes Recorded: the location becomes the state URL and one entry with the encoded text and the engine is pushed |
| App.Controller.ClearOutput | app.js:232-240 | only the panel changes: the first #text div and then the first <a> are removed |
| App.Controller.Present | app.js:249-294 | the page becomes Presented for the branch; the png branch returns the SVG to rasterise, the others nothing |
| App.Controller.UpdateOutput | app.js:223-297 | the page becomes Output of the result, and the SVG left to the png branch is returned; OutputSpec states what that page is |
| App.OutputSpec | app.js:223-297 | raw enabled exactly for svg; the output slot is emptied; a null result changes nothing else; otherwise working and error off, exactly one child per branch, exactly one history entry; the status and error container are never touched |
| App.Controller.Publish | app.js:246-296 | past the null check: classes off, then the branch's presentation, then updateState |
| App.Controller.ShowImage | app.js:270-281 | the page becomes Imaged: the rasteriser's error goes to show_error; its image becomes the graphviz.png link and is appended in an <a> |
| App.Controller.RenderGraph | app.js:179-211 | the new page is Render of the old page, the editor text, the selected engine and format and the raw checkbox |
| App.Controller.Load | app.js:184-206 | the load callback: a throw goes to show_error, a result to updateOutput; the png branch's SVG is returned |
| App.Controller.Settle | app.js:207-210 | the finally (working off, "done" for 500 ms), then the png callback for the pending SVG |
| App.RenderSettles | app.js:179-211 | a render always ends with working off and a status shown for 500 ms; it reads "error" exactly when png rasterisation failed; error is on exactly when the compile threw or that happened |
| App.RenderThrown | app.js:200-209 | a compile throw leaves the panel, download link, raw checkbox, location and history unchanged and puts the thrown message in the error container |
| App.RenderNull | app.js:223-244 | a null document element empties the output slot, enables the raw checkbox for svg only, and leaves the error container, download link, history and location as they were |
| App.RenderRecords | app.js:213-221 | a result pushes exactly one history entry; its state decodes to the text, its URL is the new location, carries the text in its fragment and names the engine |
| App.RenderShows | app.js:249-294 | a result replaces the output slot's content by exactly one child per branch: the SVG with a data-URL link decoding to the serialised SVG, the text with the link kept, the png image with its link, or nothing when rasterisation fails |
| App.Controller.SelectEngine | app.js:313 | the engine is selected and the page is the render with it |
| App.Controller.SelectFormat | app.js:312 | the format is selected and the page is the render with it |
| App.Controller.ToggleRaw | app.js:314 | the checkbox takes the new state and the page is the render with it |
| App.Controller.CopyShareURL | app.js:117-156 | on success the field is inline with the three-parameter URL and only the status changes, reflecting the clipboard; on a compression throw the field is hidden and cleared and the page becomes Failed; the button always ends enabled as "Share" |
| App.Controller.ApplyParams | app.js:329-348 | a listed engine/format selects its first option; an unlisted one keeps the selection; the page becomes ParamErrors of the old one |
| App.ParamErrorsSpec | app.js:329-348 | an invalid parameter shows "error" for 500 ms with only its message in the error container, the format's winning; valid or absent parameters leave the page as it was |
| App.Controller.LoadInitialText | app.js:354-382 | the text a source sets (raw, decompressed, fetched on ok, decoded hash) is in the editor, the debounce armed as setValue arms it; raw, fetched and editor text are rendered at once; a failed fetch goes to show_error; any other source leaves the page alone |
| App.Controller.Startup | app.js:329-382 | a listed engine or format is selected and an unlisted one keeps the selection; every source sets the text and arms the debounce as the source chain does; the page is that of the source chain run from the page the parameter checks left, so every render uses the engine and format the URL selected |
| TeX.TrimStart | mathjax-support.js:11 | removes exactly the leading whitespace and line terminators |
| TeX.TrimEnd | mathjax-support.js:11 | removes exactly the trailing whitespace and line terminators |
| TeX.TrimEmpty | mathjax-support.js:11 | a body trims to "" exactly when it is all whitespace and line terminators |
| TeX.NextDollar | mathjax-support.js:10 | the first '$' at or after a position, None when there is none |
| TeX.DollarAt | mathjax-support.js:10 | the closing '$' of a match starting at a position, None exactly when no match starts there |
| TeX.FindDollar | mathjax-support.js:10 | the leftmost $…$ match, None exactly when there is none |
| TeX.CloseFrom | mathjax-support.js:12-14 | the first closing delimiter, provided no line terminator comes before it |
| TeX.DelimAt | mathjax-support.js:12-14 | the lazy closing of a \(…\) or \[…\] match starting at a position, None exactly when none starts there |
| TeX.FindDelim | mathjax-support.js:12-14 | the leftmost \(…\) or \[…\] match, None exactly when there is none |
| TeX.DelimFinds | mathjax-support.js:12-15 | a delimited form yields a body exactly when it matches somewhere |
| TeX.ExtractFinds | mathjax-support.js:9-17 | extractFirstTeX is non-null exactly when one of the three forms matches |
| TeX.ExtractDollar | mathjax-support.js:10-11 | with a $…$ match, the result is the trimmed body of the leftmost one |
| TeX.DelimBody | mathjax-support.js:12-15 | a delimited form's result is the trimmed body of its leftmost match |
| TeX.DollarFinds | mathjax-support.js:10 | the $ search succeeds exactly when a $…$ match exists |
| TeX.ExtractParen | mathjax-support.js:12-13 | without $…$, the trimmed body of the leftmost \(…\), even after an earlier '$' or \[ |
| TeX.ExtractBracket | mathjax-support.js:14-15 | without $…$ or \(…\), the trimmed body of the leftmost \[…\] |
| TeX.GuardFromMatches | mathjax-support.js:26 | the guard's scan from a position accepts exactly when some alternative matches at or after it |
| TeX.GuardAgrees | mathjax-support.js:26-29 | the guard accepts a text exactly when extractFirstTeX finds something in it |
| TeX.ExampleDollarFirst | mathjax-support.js:9-17 | a later $…$ wins over an earlier \(…\), and the body is trimmed |
| TeX.ExampleDollarAcrossLines | mathjax-support.js:10 | a $ body may span a line break |
| TeX.ExampleParenNotAcrossLines | mathjax-support.js:12 | a \( body may not |
| TeX.ExampleEmptyDollar | mathjax-support.js:10 | "$$" is not a match |
| Typeset.Centre | mathjax-support.js:32-33 | the scaled centre of the new box lands on the old box's centre; the scale maps new height to old, with a zero height read as 1 |
| Typeset.ExampleHalfScale | mathjax-support.js:50-52 | a formula twice the label's height is drawn at scale 0.5 |
| Typeset.TransformReadsBack | mathjax-support.js:53 | the transform attribute holds exactly tx, ty and s, in order, as formatted |
| Typeset.Step | mathjax-support.js:25-55 | non-text nodes are kept; a replacement is a group with a transform |
| Typeset.StepReplaces | mathjax-support.js:26-55 | a text node is replaced exactly when its body is non-empty and MathJax returns an SVG, then by that SVG centred over the text; a rejection aborts |
| Typeset.BlankBodyKept | mathjax-support.js:28-29 | a body that trims to "" leaves the node unchanged |
| Typeset.TextPositionsFrom | mathjax-support.js:23 | the snapshot lists every text node position once, in increasing order |
| Typeset.Pass | mathjax-support.js:19-57 | the pass keeps the number of sibling nodes |
| Typeset.PassFromAt | mathjax-support.js:24-55 | each position ends replaced by its own step's group if the pass reaches it, else unchanged |
| Typeset.PassKeepsOthers | mathjax-support.js:23-24 | non-text nodes, including groups already inserted, are never changed |
| Typeset.PassAt | mathjax-support.js:24-55 | up to the first rejection every node becomes what its step makes of it; from there on nothing changes |
| Typeset.PassIdempotent | mathjax-support.js:19-57 | a second pass over the result changes nothing |
| Typeset.GraphSvg.InsertBefore | mathjax-support.js:47 | the group is inserted just before the node |
| Typeset.GraphSvg.SetTransform | mathjax-support.js:53 | only the group's transform attribute changes |
| Typeset.GraphSvg.Remove | mathjax-support.js:55 | the node is removed and the others keep their order |
| Typeset.TypesetNode | mathjax-support.js:25-55 | the loop body changes the SVG exactly as Step says: the node is replaced in place by its group, or the SVG is unchanged; it reports a rejection |
| Typeset.TypesetMathInGraphSvg | mathjax-support.js:19-57 | without MathJax no node is read or changed; otherwise the loop over the snapshot leaves the SVG equal to the pass over the original nodes |

## Left out

- The panel toggle, `resizeSVG` and the pan-zoom calls (app.js:11-43, 260-265): layout only.
- The editor theme and mode, and the `presentation` body class: cosmetic.
- The internals of `copyToClipboard` (DOM selection, `execCommand`): its result is a parameter.
- `svgXmlToImage`, base64 and the canvas at a device pixel ratio: the rasteriser is a function from the serialised SVG to an image source or an error.
- Graphviz, the XML parser and serialiser, LZString, `fetch`, MathJax and `getBBox`: not modelled inside. They are functions in `Env` or parameters, assumed deterministic.
- Asynchronous interleaving: each render, fetch and typesetting pass runs as one sequential step. Overlapping renders, and a png callback landing after a later render, are not modelled.
- The `Loading…` interval of the share button: it is created and cleared within one synchronous call and cannot be observed.
- The global patching of `HTMLOptionsCollection.prototype`: only the search is modelled.
- Floating point: the centring arithmetic is over `real`. NaN heights reaching `|| 1` are not modelled.
- JavaScript strings with lone surrogates: characters are Unicode scalar values, so `encodeURIComponent` never throws here.
- The parsing of `location.search` into pairs: the query is already a list of pairs.
- Number-to-string conversion in the transform template: a parameter.
- The SVG tree: it is one flat sequence of sibling nodes, so nested text elements are not modelled.
- App.Controller.LoadInitialText: a malformed fragment makes `decodeURIComponent` throw and ends the startup block. The model leaves the text unchanged and reports nothing.
- App.Controller.UpdateOutput: a serialiser throw inside it is not modelled; the serialiser is total.
- The `disabled` class on `#raw` (app.js:225, 228): it always follows the checkbox's own disabled state, which `rawEnabled` models.
- The png image's `title` attribute (app.js:275): it does not affect what is shown or downloaded.
- The test file and the mocks: not part of the model.
