/** The address-bar side of the controller: query parameters, the URL that updateState
    pushes (percent-encoded text in the fragment, engine in the query), the share URL of
    copyShareURL, and the order in which startup picks the source of the editor text. */
module UrlState {
  import opened Wrappers
  import opened UriEncoding

  /** A URLSearchParams list: name/value pairs in order, names may repeat */
  type Query = seq<(string, string)>

  /** URLSearchParams.get: the value of the first pair with that name */
  function Get(q: Query, name: string): (r: Option<string>)
    ensures r.None? <==> forall i :: 0 <= i < |q| ==> q[i].0 != name
    ensures r.Some? ==> (name, r.value) in q
  {
    if q == [] then None
    else if q[0].0 == name then Some(q[0].1)
    else Get(q[1..], name)
  }

  /** get returns the value of the first pair with the name */
  lemma {:induction false} GetFirst(q: Query, name: string)
    ensures Get(q, name).Some? ==>
              exists i :: 0 <= i < |q| && q[i] == (name, Get(q, name).value) && forall j :: 0 <= j < i ==> q[j].0 != name
  {
    if q != [] && q[0].0 != name && Get(q, name).Some? {
      GetFirst(q[1..], name);
      var i :| 0 <= i < |q[1..]| && q[1..][i] == (name, Get(q, name).value) && forall j :: 0 <= j < i ==> q[1..][j].0 != name;
      assert q[i + 1] == (name, Get(q, name).value);
      assert forall j :: 1 <= j < i + 1 ==> q[j] == q[1..][j - 1];
    } else if q != [] && q[0].0 == name {
      assert q[0] == (name, Get(q, name).value);
    }
  }

  predicate Has(q: Query, name: string) {
    Get(q, name).Some?
  }

  /** The number of pairs with that name */
  function Count(q: Query, name: string): nat {
    if q == [] then 0 else (if q[0].0 == name then 1 else 0) + Count(q[1..], name)
  }

  lemma {:induction false} GetAppend(q: Query, p: (string, string), name: string)
    ensures Get(q + [p], name) == if Has(q, name) then Get(q, name) else if p.0 == name then Some(p.1) else None
    ensures Count(q + [p], name) == Count(q, name) + if p.0 == name then 1 else 0
  {
    if q != [] {
      assert (q + [p])[1..] == q[1..] + [p];
      GetAppend(q[1..], p, name);
    } else {
      assert [] + [p] == [p];
    }
  }

  /** The pairs without any of that name */
  function RemoveAll(q: Query, name: string): (r: Query)
    ensures Get(r, name).None? && Count(r, name) == 0
    ensures forall n :: n != name ==> Get(r, n) == Get(q, n)
  {
    if q == [] then []
    else if q[0].0 == name then RemoveAll(q[1..], name)
    else [q[0]] + RemoveAll(q[1..], name)
  }

  /** The first pair with that name gets the value, later ones are removed */
  function ReplaceFirst(q: Query, name: string, value: string): (r: Query)
    requires Has(q, name)
    ensures Get(r, name) == Some(value) && Count(r, name) == 1
    ensures forall n :: n != name ==> Get(r, n) == Get(q, n)
  {
    if q[0].0 == name then [(name, value)] + RemoveAll(q[1..], name)
    else [q[0]] + ReplaceFirst(q[1..], name, value)
  }

  /** URLSearchParams.set: afterwards exactly one pair has the name, it holds the value, and
      every other name reads as before */
  function SetParam(q: Query, name: string, value: string): (r: Query)
    ensures Get(r, name) == Some(value) && Count(r, name) == 1
    ensures forall n :: n != name ==> Get(r, n) == Get(q, n)
    ensures !Has(q, name) ==> r == q + [(name, value)]
  {
    if Has(q, name) then ReplaceFirst(q, name, value)
    else
      GetAppend(q, (name, value), name);
      assert Count(q, name) == 0 by { NoneCountsZero(q, name); }
      assert forall n :: n != name ==> Get(q + [(name, value)], n) == Get(q, n) by {
        forall n | n != name ensures Get(q + [(name, value)], n) == Get(q, n) {
          GetAppend(q, (name, value), n);
        }
      }
      q + [(name, value)]
  }

  /** set keeps the first pair with the name where it stood, with the new value, and drops
      the later pairs with that name; the pairs of every other name keep their order */
  lemma SetParamInPlace(q: Query, name: string, value: string, i: nat)
    requires i < |q| && q[i].0 == name && forall j :: 0 <= j < i ==> q[j].0 != name
    ensures SetParam(q, name, value) == q[..i] + [(name, value)] + RemoveAll(q[i + 1..], name)
    ensures RemoveAll(SetParam(q, name, value), name) == RemoveAll(q, name)
  {
    assert Has(q, name);
    ReplaceFirstAt(q, name, value, i);
    ReplaceFirstOthers(q, name, value);
    assert q[..i] + ([(name, value)] + RemoveAll(q[i + 1..], name)) == q[..i] + [(name, value)] + RemoveAll(q[i + 1..], name);
  }

  lemma {:induction false} ReplaceFirstAt(q: Query, name: string, value: string, i: nat)
    requires i < |q| && q[i].0 == name && forall j :: 0 <= j < i ==> q[j].0 != name
    ensures Has(q, name) && ReplaceFirst(q, name, value) == q[..i] + ([(name, value)] + RemoveAll(q[i + 1..], name))
    decreases i
  {
    assert Has(q, name);
    if i == 0 {
      assert q[..i] == [];
    } else {
      var rest := q[1..];
      assert q[0].0 != name;
      assert rest[i - 1] == q[i];
      assert forall j :: 0 <= j < i - 1 ==> rest[j].0 != name by {
        forall j | 0 <= j < i - 1 ensures rest[j].0 != name {
          assert rest[j] == q[j + 1];
        }
      }
      ReplaceFirstAt(rest, name, value, i - 1);
      assert rest[i..] == q[i + 1..];
      var tail := [(name, value)] + RemoveAll(q[i + 1..], name);
      assert ReplaceFirst(q, name, value) == [q[0]] + (rest[..i - 1] + tail);
      ConsFront(q, i, tail);
    }
  }

  lemma ConsFront<T>(q: seq<T>, i: nat, tail: seq<T>)
    requires 0 < i <= |q|
    ensures [q[0]] + (q[1..][..i - 1] + tail) == q[..i] + tail
  {
    assert [q[0]] + q[1..][..i - 1] == q[..i];
  }

  lemma {:induction false} ReplaceFirstOthers(q: Query, name: string, value: string)
    requires Has(q, name)
    ensures RemoveAll(ReplaceFirst(q, name, value), name) == RemoveAll(q, name)
  {
    if q[0].0 == name {
      var r := RemoveAll(q[1..], name);
      assert ([(name, value)] + r)[1..] == r;
      RemoveAllAbsent(r, name);
    } else {
      ReplaceFirstOthers(q[1..], name, value);
      var s := ReplaceFirst(q[1..], name, value);
      assert ([q[0]] + s)[1..] == s;
    }
  }

  lemma {:induction false} RemoveAllAbsent(q: Query, name: string)
    requires !Has(q, name)
    ensures RemoveAll(q, name) == q
  {
    if q != [] {
      RemoveAllAbsent(q[1..], name);
    }
  }

  lemma {:induction false} NoneCountsZero(q: Query, name: string)
    requires !Has(q, name)
    ensures Count(q, name) == 0
  {
    if q != [] {
      NoneCountsZero(q[1..], name);
    }
  }

  /** A URL: everything before the query, the query pairs, and the fragment ("" for none) */
  datatype Url = Url(base: string, query: Query, fragment: string)

  /** location.hash: "" without a fragment, otherwise '#' and the fragment */
  function Hash(u: Url): (h: string)
    ensures u.fragment == "" <==> h == ""
    ensures u.fragment != "" ==> |h| == |u.fragment| + 1 && h[1..] == u.fragment
  {
    if u.fragment == "" then "" else "#" + u.fragment
  }

  /** The state object updateState pushes, and the one onpopstate receives (None for a null
      state, a None field for an undefined one) */
  datatype HistoryState = HistoryState(content: Option<string>, engine: Option<string>)

  datatype HistoryEntry = HistoryEntry(state: Option<HistoryState>, url: Url)

  /** The URL updateState builds from the current location: the fragment is
      encodeURIComponent(text), the engine parameter is set, all else stays */
  function StateUrl(location: Url, text: string, engine: string): Url {
    Url(location.base, SetParam(location.query, "engine", engine), EncodeURIComponent(text))
  }

  /** The pushed URL keeps the address, carries the text recoverably in its fragment, names
      the engine exactly once, and reads every other parameter as the location did */
  lemma StateUrlReads(location: Url, text: string, engine: string)
    ensures var u := StateUrl(location, text, engine);
            && u.base == location.base
            && DecodeURIComponent(u.fragment) == Some(text)
            && Get(u.query, "engine") == Some(engine) && Count(u.query, "engine") == 1
            && forall n :: n != "engine" ==> Get(u.query, n) == Get(location.query, n)
  {
    DecodeEncode(text);
  }

  /** The URL copyShareURL builds: the location's address with exactly three parameters,
      compressed, engine and format, and no fragment. The raw-mode checkbox is not part of
      it. */
  function ShareUrl(location: Url, compressed: string, engine: string, format: string): Url {
    Url(location.base, [("compressed", compressed), ("engine", engine), ("format", format)], "")
  }

  /** copyShareURL clears the search and the hash of the location and then sets compressed,
      engine and format in turn: that yields ShareUrl, whatever the location held before */
  lemma ShareUrlBySet(location: Url, compressed: string, engine: string, format: string)
    ensures var cleared := location.(query := [], fragment := "");
            var q := SetParam(SetParam(SetParam(cleared.query, "compressed", compressed), "engine", engine), "format", format);
            cleared.(query := q) == ShareUrl(location, compressed, engine, format)
  {
  }

  /** Where the startup block takes the editor text from */
  datatype StartupSource =
    | RawSource(raw: string)                 // ?raw=: set the text and render at once
    | CompressedSource(compressed: string)   // ?compressed=: set the decompressed text
    | RemoteSource(url: string)              // ?url=: fetch, then set the text and render
    | HashSource(encoded: string)            // #…: set the decoded fragment
    | EditorSource                           // render the text the editor already holds
    | NoSource

  /** Renders during startup, before any response arrives */
  predicate RendersAtOnce(s: StartupSource) {
    s.RawSource? || s.EditorSource?
  }

  /** The startup if/else chain: raw, then compressed, then url, then a hash longer than
      "#", then a non-empty editor; the first that applies wins */
  function ResolveStartup(params: Query, hash: string, editorText: string): (s: StartupSource)
    ensures s.RawSource? <==> Has(params, "raw")
    ensures s.CompressedSource? <==> !Has(params, "raw") && Has(params, "compressed")
    ensures s.RemoteSource? <==> !Has(params, "raw") && !Has(params, "compressed") && Has(params, "url")
    ensures s.HashSource? <==>
      !Has(params, "raw") && !Has(params, "compressed") && !Has(params, "url") && |hash| > 1
    ensures s.RawSource? ==> Get(params, "raw") == Some(s.raw)
    ensures s.CompressedSource? ==> Get(params, "compressed") == Some(s.compressed)
    ensures s.RemoteSource? ==> Get(params, "url") == Some(s.url)
    ensures s.HashSource? ==> s.encoded == hash[1..]
    ensures RendersAtOnce(s) <==>
      (Has(params, "raw") || (!Has(params, "compressed") && !Has(params, "url") && |hash| <= 1 && editorText != ""))
  {
    if Has(params, "raw") then RawSource(Get(params, "raw").value)
    else if Has(params, "compressed") then CompressedSource(Get(params, "compressed").value)
    else if Has(params, "url") then RemoteSource(Get(params, "url").value)
    else if |hash| > 1 then HashSource(hash[1..])
    else if editorText != "" then EditorSource
    else NoSource
  }

  /** Loading a URL that updateState pushed (from a page opened without raw, compressed or
      url parameters) takes the text from the fragment, and decoding it gives the text back */
  lemma HistoryUrlRestores(location: Url, text: string, engine: string, editorText: string)
    requires !Has(location.query, "raw") && !Has(location.query, "compressed") && !Has(location.query, "url")
    requires text != ""
    ensures var u := StateUrl(location, text, engine);
            var s := ResolveStartup(u.query, Hash(u), editorText);
            s.HashSource? && DecodeURIComponent(s.encoded) == Some(text)
  {
    var u := StateUrl(location, text, engine);
    StateUrlReads(location, text, engine);
    assert Get(u.query, "raw") == Get(location.query, "raw");
    assert Get(u.query, "compressed") == Get(location.query, "compressed");
    assert Get(u.query, "url") == Get(location.query, "url");
    assert u.fragment == EncodeURIComponent(text);
  }

  /** Loading a share URL takes the text from the compressed parameter, without rendering,
      and finds the engine and format that were shared */
  lemma ShareUrlRestores(location: Url, compressed: string, engine: string, format: string, editorText: string)
    ensures var u := ShareUrl(location, compressed, engine, format);
            && ResolveStartup(u.query, Hash(u), editorText) == CompressedSource(compressed)
            && Get(u.query, "engine") == Some(engine)
            && Get(u.query, "format") == Some(format)
  {
    var u := ShareUrl(location, compressed, engine, format);
    assert u.query[0].0 == "compressed" && u.query[1].0 == "engine" && u.query[2].0 == "format";
    assert !Has(u.query, "raw");
    assert Get(u.query, "compressed") == Some(compressed);
  }
}
