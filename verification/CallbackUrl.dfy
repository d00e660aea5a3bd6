/**
  * Reading the server's answer off the page address, and rewriting the address so that the answer
  * is not read twice.
  */
module CallbackUrl {
  import opened Common
  import opened Sequences

  datatype Flow = Standard | Implicit | Hybrid
  datatype ResponseMode = Query | Fragment

  /** The parameters taken off the address, and the `&`-pieces that stay on it. */
  datatype Params = Params(rest: string, oauth: map<string, string>)

  datatype Callback = Callback(oauth: map<string, string>, newUrl: string)

  /** The parameter names the client recognises. */
  function SupportedParams(flow: Flow): seq<string> {
    (match flow
     case Standard => ["code", "state", "session_state", "kc_action_status", "kc_action", "iss"]
     case Implicit => ["access_token", "token_type", "id_token", "state", "session_state", "expires_in",
                       "kc_action_status", "kc_action", "iss"]
     case Hybrid => ["access_token", "token_type", "id_token", "code", "state", "session_state", "expires_in",
                     "kc_action_status", "kc_action", "iss"])
    + ["error", "error_description", "error_uri"]
  }

  /** JavaScript's `substring`: bounds past the end are cut, and bounds in the wrong order change places. */
  function Substring(s: string, a: nat, b: nat): string {
    var x, y := if a < |s| then a else |s|, if b < |s| then b else |s|;
    if x <= y then s[x..y] else s[y..x]
  }

  function Split(s: string, sep: char): (ps: seq<string>)
    ensures ps != []
    ensures forall i :: 0 <= i < |ps| ==> sep !in ps[i]
    decreases |s|
  {
    var i := IndexOf(s, sep);
    if i == -1 then [s] else [s[..i]] + Split(s[i + 1..], sep)
  }

  function Join(ps: seq<string>, sep: char): string {
    if ps == [] then "" else if |ps| == 1 then ps[0] else ps[0] + [sep] + Join(ps[1..], sep)
  }

  /** A piece without `=` loses its last character. */
  function KeyOf(piece: string): string {
    var split := IndexOf(piece, '=');
    if split != -1 then piece[..split] else if piece == "" then "" else piece[..|piece| - 1]
  }

  function ValueOf(piece: string): string {
    piece[IndexOf(piece, '=') + 1..]
  }

  function Kept(ps: seq<string>, supported: seq<string>): (kept: seq<string>)
    ensures forall i :: 0 <= i < |kept| ==> kept[i] in ps && KeyOf(kept[i]) !in supported
  {
    if ps == [] then []
    else (if KeyOf(ps[0]) in supported then [] else [ps[0]]) + Kept(ps[1..], supported)
  }

  /** The recognised pieces by name; a later piece overrides an earlier one of the same name. */
  function Recognised(ps: seq<string>, supported: seq<string>): (m: map<string, string>)
  {
    if ps == [] then map[]
    else
      var last := ps[|ps| - 1];
      var before := Recognised(ps[..|ps| - 1], supported);
      if KeyOf(last) in supported then before[KeyOf(last) := ValueOf(last)] else before
  }

  /** Of several pieces with one recognised name the last gives the value. */
  lemma {:induction false} LastPieceWins(ps: seq<string>, supported: seq<string>, i: nat)
    requires i < |ps| && KeyOf(ps[i]) in supported
    requires forall j :: i < j < |ps| ==> KeyOf(ps[j]) != KeyOf(ps[i])
    ensures KeyOf(ps[i]) in Recognised(ps, supported)
    ensures Recognised(ps, supported)[KeyOf(ps[i])] == ValueOf(ps[i])
  {
    hide KeyOf, ValueOf;
    if i < |ps| - 1 {
      LastPieceWins(ps[..|ps| - 1], supported, i);
    }
  }

  /** Only names that a piece carries are recognised. */
  lemma {:induction false} RecognisedHasPiece(ps: seq<string>, supported: seq<string>, key: string)
    requires key in Recognised(ps, supported)
    ensures key in supported && exists p :: p in ps && KeyOf(p) == key
  {
    hide KeyOf, ValueOf;
    var n := |ps| - 1;
    if KeyOf(ps[n]) == key && key in supported {
      assert ps[n] in ps;
    } else {
      RecognisedHasPiece(ps[..n], supported, key);
    }
  }

  function DropLeadingEmpty(ps: seq<string>): (r: seq<string>)
    ensures forall i :: 0 <= i < |r| ==> r[i] in ps
    ensures r != [] ==> r[0] != ""
  {
    if ps == [] then [] else if ps[0] == "" then DropLeadingEmpty(ps[1..]) else ps
  }

  function ParseParams(text: string, supported: seq<string>): Params {
    var ps := Split(text, '&');
    Params(Join(DropLeadingEmpty(Kept(ps, supported)), '&'), Recognised(ps, supported))
  }

  /** One more piece at the end; the separator is written only behind something. */
  function Glue(acc: string, p: string): string {
    if acc != "" then acc + "&" + p else p
  }

  /** The pieces before the loop's position, put together again the way the loop does it. */
  function Rebuilt(acc: string, ps: seq<string>): string
    decreases |ps|
  {
    if ps == [] then acc
    else Rebuilt(Glue(acc, ps[0]), ps[1..])
  }

  lemma {:induction false} RebuiltSnoc(acc: string, ps: seq<string>, p: string)
    ensures Rebuilt(acc, ps + [p]) == Glue(Rebuilt(acc, ps), p)
    decreases |ps|
  {
    if ps == [] {
      assert ps + [p] == [p];
    } else {
      assert (ps + [p])[1..] == ps[1..] + [p];
      RebuiltSnoc(Glue(acc, ps[0]), ps[1..], p);
    }
  }

  lemma {:induction false} RebuiltAfter(acc: string, ps: seq<string>)
    requires acc != ""
    ensures Rebuilt(acc, ps) == Join([acc] + ps, '&')
    decreases |ps|
  {
    if ps == [] {
      assert [acc] + ps == [acc];
    } else {
      var next := acc + "&" + ps[0];
      RebuiltAfter(next, ps[1..]);
      assert ([acc] + ps)[1..] == ps;
      if |ps| == 1 {
        assert [next] + ps[1..] == [next];
      } else {
        assert ([next] + ps[1..])[1..] == ps[1..];
      }
    }
  }

  /** The loop joins the kept pieces, except that empty pieces in front leave no trace. */
  lemma {:induction false} RebuiltIsJoin(ps: seq<string>)
    ensures Rebuilt("", ps) == Join(DropLeadingEmpty(ps), '&')
  {
    if ps != [] {
      if ps[0] == "" {
        RebuiltIsJoin(ps[1..]);
      } else {
        RebuiltAfter(ps[0], ps[1..]);
        assert [ps[0]] + ps[1..] == ps;
      }
    }
  }

  lemma {:induction false} KeptSnoc(ps: seq<string>, p: string, supported: seq<string>)
    ensures Kept(ps + [p], supported) == Kept(ps, supported) + if KeyOf(p) in supported then [] else [p]
  {
    if ps == [] {
      assert ps + [p] == [p];
    } else {
      assert (ps + [p])[1..] == ps[1..] + [p];
      KeptSnoc(ps[1..], p, supported);
    }
  }

  lemma RecognisedSnoc(ps: seq<string>, p: string, supported: seq<string>)
    ensures Recognised(ps + [p], supported) ==
            var before := Recognised(ps, supported);
            if KeyOf(p) in supported then before[KeyOf(p) := ValueOf(p)] else before
  {
    assert (ps + [p])[..|ps|] == ps;
  }

  /** The loop over the pieces. */
  method ParseCallbackParams(paramsString: string, supportedParams: seq<string>) returns (result: Params)
    ensures result == ParseParams(paramsString, supportedParams)
  {
    hide Split, Rebuilt, Kept, Recognised, Join, DropLeadingEmpty, KeyOf, ValueOf;
    var p := Split(paramsString, '&');
    result := Params("", map[]);
    NothingRead(p[..0], supportedParams);
    for i := 0 to |p|
      invariant ReadSoFar(p[..i], supportedParams, result)
    {
      var split := IndexOf(p[i], '=');
      var key := if split != -1 then p[i][..split] else if p[i] == "" then "" else p[i][..|p[i]| - 1];
      assert p[..i + 1] == p[..i] + [p[i]];
      OnePieceMore(p[..i], p[i], supportedParams, result, key, split);
      if key in supportedParams {
        result := result.(oauth := result.oauth[key := p[i][split + 1..]]);
      } else {
        var paramsSoFar := result.rest;
        if result.rest != "" {
          paramsSoFar := paramsSoFar + "&";
        }
        result := result.(rest := paramsSoFar + p[i]);
      }
    }
    assert p[..|p|] == p;
    RebuiltIsJoin(Kept(p, supportedParams));
  }

  /** The loop's result after the pieces `ps`. */
  ghost predicate ReadSoFar(ps: seq<string>, supported: seq<string>, result: Params) {
    result == Params(Rebuilt("", Kept(ps, supported)), Recognised(ps, supported))
  }

  lemma NothingRead(ps: seq<string>, supported: seq<string>)
    requires ps == []
    ensures ReadSoFar(ps, supported, Params("", map[]))
  {
  }

  lemma OnePieceMore(ps: seq<string>, p: string, supported: seq<string>, result: Params, key: string, split: int)
    requires ReadSoFar(ps, supported, result) && split == IndexOf(p, '=')
    requires key == if split != -1 then p[..split] else if p == "" then "" else p[..|p| - 1]
    ensures ReadSoFar(ps + [p], supported,
                      if key in supported then result.(oauth := result.oauth[key := p[split + 1..]])
                      else result.(rest := Glue(result.rest, p)))
  {
    hide Rebuilt, Kept, Recognised;
    KeptSnoc(ps, p, supported);
    RebuiltSnoc("", Kept(ps, supported), p);
    RecognisedSnoc(ps, p, supported);
    assert key == KeyOf(p) && p[split + 1..] == ValueOf(p);
    assert Kept(ps, supported) + [] == Kept(ps, supported);
  }

  /** Splitting what was joined gives the pieces back. */
  lemma {:induction false} SplitJoin(ps: seq<string>, sep: char)
    requires ps != [] && forall i :: 0 <= i < |ps| ==> sep !in ps[i]
    ensures Split(Join(ps, sep), sep) == ps
  {
    var s := Join(ps, sep);
    if |ps| > 1 {
      FirstAt(ps[0], sep, Join(ps[1..], sep));
      SplitJoin(ps[1..], sep);
    } 
  }

  /** The first `c` of `a + [c] + b` follows `a`, when `a` has none. */
  lemma {:induction false} FirstAt(a: string, c: char, b: string)
    requires c !in a
    ensures var s := a + [c] + b;
            IndexOf(s, c) == |a| && s[..|a|] == a && s[|a| + 1..] == b
  {
    var s := a + [c] + b;
    assert s[..|a|] == a;
    IndexOfIs(s, c, |a|);
  }

  /** What stays on the address holds no recognised parameter, and reading it changes nothing. */
  lemma {:induction false} RestIsClean(text: string, supported: seq<string>)
    requires "" !in supported
    ensures var rest := ParseParams(text, supported).rest;
            ParseParams(rest, supported) == Params(rest, map[])
  {
    var ps := Split(text, '&');
    var kept := DropLeadingEmpty(Kept(ps, supported));
    var rest := Join(kept, '&');
    forall i | 0 <= i < |kept|
      ensures '&' !in kept[i] && KeyOf(kept[i]) !in supported
    {
      assert kept[i] in Kept(ps, supported);
    }
    if kept == [] {
      assert Split(rest, '&') == [""];
      AllKept([""], supported);
    } else {
      SplitJoin(kept, '&');
      AllKept(kept, supported);
    }
  }

  lemma {:induction false} AllKept(ps: seq<string>, supported: seq<string>)
    requires forall i :: 0 <= i < |ps| ==> KeyOf(ps[i]) !in supported
    ensures Kept(ps, supported) == ps && Recognised(ps, supported) == map[]
  {
    if ps != [] {
      AllKept(ps[1..], supported);
      AllKept(ps[..|ps| - 1], supported);
    }
  }

  lemma {:induction false} RestCharacters(text: string, supported: seq<string>, c: char)
    requires c !in text && c != '&'
    ensures c !in ParseParams(text, supported).rest
  {
    PieceCharacters(text, '&', c);
    var kept := Kept(Split(text, '&'), supported);
    JoinCharacters(DropLeadingEmpty(kept), '&', c);
  }

  lemma {:induction false} PieceCharacters(s: string, sep: char, c: char)
    requires c !in s
    ensures forall p :: p in Split(s, sep) ==> c !in p
    decreases |s|
  {
    var i := IndexOf(s, sep);
    if i != -1 {
      PieceCharacters(s[i + 1..], sep, c);
    }
  }

  lemma {:induction false} JoinCharacters(ps: seq<string>, sep: char, c: char)
    requires c != sep && forall p :: p in ps ==> c !in p
    ensures c !in Join(ps, sep)
  {
    if |ps| > 1 {
      JoinCharacters(ps[1..], sep, c);
    }
  }

  /** Present and not empty. */
  predicate Has(oauth: map<string, string>, key: string) {
    key in oauth && oauth[key] != ""
  }

  predicate IsCallback(flow: Flow, oauth: map<string, string>) {
    && (Has(oauth, "error") || Has(oauth, if flow == Implicit then "access_token" else "code"))
    && Has(oauth, "state")
  }

  /**
    * `parseCallbackUrl`: in query mode the text between `?` and `#` is read, in fragment mode the text
    * behind `#`. Query mode does not ask whether the `#` comes first; `substring` then swaps its bounds.
    */
  function ParseCallbackUrl(flow: Flow, mode: ResponseMode, url: string): Option<Callback> {
    var supported := SupportedParams(flow);
    var queryIndex, fragmentIndex := IndexOf(url, '?'), IndexOf(url, '#');
    if mode == Query && queryIndex != -1 then
      var parsed := ParseParams(QueryText(url), supported);
      var newUrl := WithParams(url[..queryIndex], '?', parsed.rest)
                    + (if fragmentIndex != -1 then url[fragmentIndex..] else "");
      if IsCallback(flow, parsed.oauth) then Some(Callback(parsed.oauth, newUrl)) else None
    else if mode == Fragment && fragmentIndex != -1 then
      var parsed := ParseParams(url[fragmentIndex + 1..], supported);
      if IsCallback(flow, parsed.oauth) then
        Some(Callback(parsed.oauth, WithParams(url[..fragmentIndex], '#', parsed.rest)))
      else None
    else None
  }

  function QueryText(url: string): string {
    var queryIndex, fragmentIndex := IndexOf(url, '?'), IndexOf(url, '#');
    Substring(url, queryIndex + 1, if fragmentIndex != -1 then fragmentIndex else |url|)
  }

  function WithParams(front: string, mark: char, params: string): string {
    front + if params != "" then [mark] + params else ""
  }

  /** What a caller can see beforehand: in query mode, the `?` comes first and the fragment does not pose as an answer. */
  predicate CleansFully(flow: Flow, mode: ResponseMode, url: string) {
    var queryIndex, fragmentIndex := IndexOf(url, '?'), IndexOf(url, '#');
    mode == Fragment || fragmentIndex == -1 ||
    (queryIndex < fragmentIndex && !FragmentPoses(flow, url, queryIndex, fragmentIndex))
  }

  /**
    * No unrecognised parameter keeps the `?` on the address, and the fragment up to a `?` of its own
    * reads as an answer.
    */
  predicate FragmentPoses(flow: Flow, url: string, queryIndex: int, fragmentIndex: int)
    requires -1 <= queryIndex < fragmentIndex < |url|
  {
    var supported, fragment := SupportedParams(flow), url[fragmentIndex..];
    && ParseParams(QueryText(url), supported).rest == ""
    && '?' in fragment
    && IsCallback(flow, ParseParams(fragment[..IndexOf(fragment, '?') + 1], supported).oauth)
  }

  lemma SupportedNames(flow: Flow)
    ensures "" !in SupportedParams(flow)
    ensures forall k :: k in SupportedParams(flow) ==> |k| > 0 && k[0] != '#'
  {
  }

  lemma NoParamsNoCallback(flow: Flow)
    ensures !IsCallback(flow, map[])
  {
  }

  /** Fragment mode: the rewritten address is never an answer again. */
  lemma {:induction false} FragmentModeCleans(flow: Flow, url: string)
    requires ParseCallbackUrl(flow, Fragment, url).Some?
    ensures ParseCallbackUrl(flow, Fragment, ParseCallbackUrl(flow, Fragment, url).value.newUrl).None?
  {
    hide ParseParams, SupportedParams, IsCallback;
    var f, supported := IndexOf(url, '#'), SupportedParams(flow);
    var rest := ParseParams(url[f + 1..], supported).rest;
    var newUrl := WithParams(url[..f], '#', rest);
    NoParamsNoCallback(flow);
    if rest != "" {
      SupportedNames(flow);
      RestIsClean(url[f + 1..], supported);
      FirstAt(url[..f], '#', rest);
      assert newUrl == url[..f] + ['#'] + rest;
    } else {
      assert newUrl == url[..f];
    }
  }

  /** Where the marks of an address put together from its parts are. */
  lemma {:induction false} QueryParts(front: string, rest: string, tail: string)
    requires '?' !in front && '#' !in front && '#' !in rest && (tail == "" || tail[0] == '#')
    ensures var url := front + ['?'] + rest + tail;
            && IndexOf(url, '?') == |front| && QueryText(url) == rest
            && (tail == "" ==> IndexOf(url, '#') == -1)
            && (tail != "" ==> IndexOf(url, '#') == |front| + 1 + |rest|)
  {
    hide IndexOf;
    var url := front + ['?'] + rest + tail;
    assert url[..|front|] == front;
    IndexOfIs(url, '?', |front|);
    var head := front + ['?'] + rest;
    assert url[..|head|] == head && '#' !in head;
    if tail != "" {
      IndexOfIs(url, '#', |head|);
    }
    assert url[|front| + 1..|head|] == rest;
  }

  /** Query mode, `?` first, and something unrecognised stays behind the `?`. */
  lemma {:induction false} QueryRestStays(flow: Flow, url: string)
    requires ParseCallbackUrl(flow, Query, url).Some?
    requires IndexOf(url, '#') == -1 || IndexOf(url, '?') < IndexOf(url, '#')
    requires ParseParams(QueryText(url), SupportedParams(flow)).rest != ""
    ensures ParseCallbackUrl(flow, Query, ParseCallbackUrl(flow, Query, url).value.newUrl).None?
  {
    hide ParseParams, SupportedParams, IsCallback, QueryText, IndexOf;
    var q, f, supported := IndexOf(url, '?'), IndexOf(url, '#'), SupportedParams(flow);
    var tail, rest := if f != -1 then url[f..] else "", ParseParams(QueryText(url), supported).rest;
    NoParamsNoCallback(flow);
    SupportedNames(flow);
    RestIsClean(QueryText(url), supported);
    QueryTextNoHash(url);
    RestCharacters(QueryText(url), supported, '#');
    assert WithParams(url[..q], '?', rest) + tail == url[..q] + ['?'] + rest + tail;
    assert '#' !in url[..q] by {
      if f != -1 {
        assert url[..q] == url[..f][..q];
      }
    }
    QueryParts(url[..q], rest, tail);
  }

  lemma QueryTextNoHash(url: string)
    requires IndexOf(url, '?') != -1 && (IndexOf(url, '#') == -1 || IndexOf(url, '?') < IndexOf(url, '#'))
    ensures '#' !in QueryText(url)
  {
    var q, f := IndexOf(url, '?'), IndexOf(url, '#');
    if f != -1 {
      assert QueryText(url) == url[..f][q + 1..];
    }
  }

  /** Query mode, `?` first, and nothing stays: the fragment decides. */
  lemma {:induction false} QueryRestGone(flow: Flow, url: string)
    requires ParseCallbackUrl(flow, Query, url).Some?
    requires IndexOf(url, '#') == -1 || IndexOf(url, '?') < IndexOf(url, '#')
    requires ParseParams(QueryText(url), SupportedParams(flow)).rest == ""
    ensures var newUrl := ParseCallbackUrl(flow, Query, url).value.newUrl;
            var f := IndexOf(url, '#');
            ParseCallbackUrl(flow, Query, newUrl).Some? <==>
            f != -1 && '?' in url[f..] &&
            IsCallback(flow, ParseParams(url[f..][..IndexOf(url[f..], '?') + 1], SupportedParams(flow)).oauth)
  {
    hide ParseParams, SupportedParams, IsCallback, IndexOf;
    var q, f := IndexOf(url, '?'), IndexOf(url, '#');
    var front, tail := url[..q], if f != -1 then url[f..] else "";
    var newUrl := front + tail;
    assert WithParams(front, '?', "") + tail == newUrl;
    if f == -1 {
      assert newUrl == front;
    } else {
      assert front == url[..f][..q];
      assert newUrl[..q] == front;
      IndexOfIs(newUrl, '#', q);
      if '?' in tail {
        var g := IndexOf(tail, '?');
        assert newUrl[..q + g] == front + tail[..g];
        IndexOfIs(newUrl, '?', q + g);
        assert QueryText(newUrl) == tail[..g + 1];
      }
    }
  }

  /** A text that begins with `#` keeps its first piece, since no recognised name does. */
  lemma {:induction false} HashPieceStays(text: string, supported: seq<string>)
    requires text != "" && text[0] == '#'
    requires "" !in supported && forall k :: k in supported ==> |k| > 0 && k[0] != '#'
    ensures ParseParams(text, supported).rest != ""
  {
    hide KeyOf, IndexOf, Split;
    FirstPiece(text);
    var ps := Split(text, '&');
    HashKey(ps[0], supported);
    var kept := Kept(ps, supported);
    assert kept[0] == ps[0] && DropLeadingEmpty(kept) == kept;
  }

  lemma FirstPiece(text: string)
    requires text != "" && text[0] == '#'
    ensures Split(text, '&')[0] != "" && Split(text, '&')[0][0] == '#'
  {
  }

  lemma HashKey(piece: string, supported: seq<string>)
    requires piece != "" && piece[0] == '#'
    requires "" !in supported && forall k :: k in supported ==> |k| > 0 && k[0] != '#'
    ensures KeyOf(piece) !in supported
  {
    hide IndexOf;
  }

  /** Query mode with a `#` before the `?`: the same text is read from the rewritten address. */
  lemma {:induction false} HashFirstNeverCleans(flow: Flow, url: string)
    requires ParseCallbackUrl(flow, Query, url).Some?
    requires IndexOf(url, '#') != -1 && IndexOf(url, '#') < IndexOf(url, '?')
    ensures var callback := ParseCallbackUrl(flow, Query, url).value;
            var again := ParseCallbackUrl(flow, Query, callback.newUrl);
            again.Some? && again.value.oauth == callback.oauth
  {
    hide ParseParams, SupportedParams, IsCallback, IndexOf;
    var q, f, supported := IndexOf(url, '?'), IndexOf(url, '#'), SupportedParams(flow);
    var text := QueryText(url);
    assert text == url[f..q + 1] && text[0] == '#';
    SupportedNames(flow);
    HashPieceStays(text, supported);
    var rest := ParseParams(text, supported).rest;
    var newUrl := WithParams(url[..q], '?', rest) + url[f..];
    assert newUrl[..q] == url[..q] && newUrl[q] == '?';
    IndexOfIs(newUrl, '?', q);
    assert newUrl[..f] == url[..f] && newUrl[f] == '#';
    IndexOfIs(newUrl, '#', f);
    assert newUrl[..q + 1] == url[..q] + ['?'] == url[..q + 1];
    assert QueryText(newUrl) == newUrl[..q + 1][f..] == text;
  }

  /**
    * The rewritten address is no answer any more exactly when the original passes `CleansFully`: always
    * in fragment mode, and in query mode whenever the `?` comes first and the fragment does not pose
    * as an answer.
    */
  lemma {:induction false} CleaningIsComplete(flow: Flow, mode: ResponseMode, url: string)
    requires ParseCallbackUrl(flow, mode, url).Some?
    ensures ParseCallbackUrl(flow, mode, ParseCallbackUrl(flow, mode, url).value.newUrl).None? <==>
            CleansFully(flow, mode, url)
  {
    hide ParseParams, SupportedParams, IsCallback, IndexOf, QueryText;
    var q, f := IndexOf(url, '?'), IndexOf(url, '#');
    if mode == Fragment {
      FragmentModeCleans(flow, url);
    } else if f != -1 && f < q {
      HashFirstNeverCleans(flow, url);
    } else {
      assert f != -1 ==> q < f;
      if ParseParams(QueryText(url), SupportedParams(flow)).rest != "" {
        QueryRestStays(flow, url);
      } else {
        QueryRestGone(flow, url);
      }
    }
  }

  /** The new address is the old one without the recognised pieces; the rest keep their order. */
  lemma {:induction false} OnlyRecognisedPiecesGo(flow: Flow, mode: ResponseMode, url: string)
    requires ParseCallbackUrl(flow, mode, url).Some?
    requires mode == Query ==> IndexOf(url, '#') == -1 || IndexOf(url, '?') < IndexOf(url, '#')
    ensures var mark := if mode == Query then '?' else '#';
            var at, end := IndexOf(url, mark), if mode == Query && '#' in url then IndexOf(url, '#') else |url|;
            && 0 <= at < end
            && var pieces := DropLeadingEmpty(Kept(Split(url[at + 1..end], '&'), SupportedParams(flow)));
               ParseCallbackUrl(flow, mode, url).value.newUrl ==
               url[..at] + (if pieces == [] then "" else [mark] + Join(pieces, '&')) + url[end..]
  {
    hide SupportedParams, IsCallback, IndexOf, Split, Kept, ParseParams, QueryText;
    var mark := if mode == Query then '?' else '#';
    var at, end := IndexOf(url, mark), if mode == Query && '#' in url then IndexOf(url, '#') else |url|;
    RestOfText(url[at + 1..end], SupportedParams(flow));
    if mode == Query {
      QueryTextIs(url);
    } else {
      assert url[|url|..] == "" && url[at + 1..] == url[at + 1..|url|];
    }
  }

  /** What is left of a text is empty exactly when no piece is left. */
  lemma RestOfText(text: string, supported: seq<string>)
    ensures var pieces := DropLeadingEmpty(Kept(Split(text, '&'), supported));
            ParseParams(text, supported).rest == Join(pieces, '&') && (pieces == [] <==> Join(pieces, '&') == "")
  {
    hide Split, Kept;
  }

  lemma QueryTextIs(url: string)
    requires IndexOf(url, '?') != -1 && (IndexOf(url, '#') == -1 || IndexOf(url, '?') < IndexOf(url, '#'))
    ensures QueryText(url) == url[IndexOf(url, '?') + 1..if '#' in url then IndexOf(url, '#') else |url|]
    ensures url[|url|..] == "" && ('#' in url <==> IndexOf(url, '#') != -1)
  {
    hide IndexOf;
  }

  const SITE := "https://a/"

  /** An address that answers again: the `#` comes before the `?`. */
  lemma HashFirstExample()
    ensures var url := SITE + "#x&code=1&state=2?";
            ParseCallbackUrl(Standard, Query, url).Some? && !CleansFully(Standard, Query, url)
  {
    hide ParseParams, IsCallback, SupportedParams, IndexOf, QueryText;
    ExampleMarks(SITE);
    ExampleIsCallback();
  }

  lemma ExampleMarks(front: string)
    requires '#' !in front && '?' !in front
    ensures var url := front + "#x&code=1&state=2?";
            IndexOf(url, '#') == |front| && IndexOf(url, '?') == |front| + 17 && QueryText(url) == "#x&code=1&state=2?"
  {
    hide IndexOf;
    var tail := "#x&code=1&state=2?";
    var url := front + tail;
    assert url[..|front|] == front && url[|front|] == '#';
    IndexOfIs(url, '#', |front|);
    assert url[..|front| + 17] == front + "#x&code=1&state=2" && url[|front| + 17] == '?';
    IndexOfIs(url, '?', |front| + 17);
    assert url[|front|..|front| + 18] == tail;
  }

  lemma ExamplePieces()
    ensures Split("#x&code=1&state=2?", '&') == ["#x", "code=1", "state=2?"]
  {
    hide Split, IndexOf;
    SplitJoin(["#x", "code=1", "state=2?"], '&');
    assert ["#x", "code=1", "state=2?"][1..] == ["code=1", "state=2?"];
    assert ["code=1", "state=2?"][1..] == ["state=2?"];
    assert Join(["code=1", "state=2?"], '&') == "code=1&state=2?";
    assert Join(["#x", "code=1", "state=2?"], '&') == "#x&code=1&state=2?";
  }

  lemma ExampleIsCallback()
    ensures IsCallback(Standard, ParseParams("#x&code=1&state=2?", SupportedParams(Standard)).oauth)
  {
    hide Split, IndexOf, SupportedParams, DropLeadingEmpty, Join, Kept;
    var supported := SupportedParams(Standard);
    ExamplePieces();
    ExampleKeys();
    var ps := ["#x", "code=1", "state=2?"];
    RecognisedSnoc([], "#x", supported);
    RecognisedSnoc(["#x"], "code=1", supported);
    RecognisedSnoc(["#x", "code=1"], "state=2?", supported);
    assert [] + ["#x"] == ["#x"] && ["#x"] + ["code=1"] == ["#x", "code=1"] && ["#x", "code=1"] + ["state=2?"] == ps;
    assert Recognised(ps, supported) == map["code" := "1", "state" := "2?"];
  }

  lemma ExampleKeys()
    ensures KeyOf("code=1") == "code" && ValueOf("code=1") == "1"
    ensures KeyOf("state=2?") == "state" && ValueOf("state=2?") == "2?"
    ensures KeyOf("#x") == "#"
    ensures "code" in SupportedParams(Standard) && "state" in SupportedParams(Standard) && "#" !in SupportedParams(Standard)
  {
    hide IndexOf, SupportedParams;
    FirstAt("code", '=', "1");
    assert "code" + ['='] + "1" == "code=1";
    FirstAt("state", '=', "2?");
    assert "state" + ['='] + "2?" == "state=2?";
    assert '=' !in "#x" && "#x"[..1] == "#";
    SupportedNames(Standard);
    assert "#"[0] == '#';
    StandardNames();
  }

  lemma StandardNames()
    ensures "code" in SupportedParams(Standard) && "state" in SupportedParams(Standard)
  {
    var supported := SupportedParams(Standard);
    assert supported[0] == "code" && supported[1] == "state";
  }

  lemma QueryExampleMarks(front: string)
    requires '#' !in front && '?' !in front
    ensures var url := front + ("?code=1&state=2" + "#x&code=1&state=2?");
            && IndexOf(url, '?') == |front| && IndexOf(url, '#') == |front| + 15
            && QueryText(url) == "code=1&state=2" && url[|front| + 15..] == "#x&code=1&state=2?"
  {
    hide IndexOf;
    var query, fragment := "?code=1&state=2", "#x&code=1&state=2?";
    var url := front + (query + fragment);
    assert url[..|front|] == front && url[|front|] == '?';
    IndexOfIs(url, '?', |front|);
    assert url[..|front| + 15] == front + query && url[|front| + 15] == '#';
    IndexOfIs(url, '#', |front| + 15);
    assert url[|front| + 1..|front| + 15] == query[1..] == "code=1&state=2";
  }

  lemma QueryExamplePieces()
    ensures Split("code=1&state=2", '&') == ["code=1", "state=2"]
    ensures KeyOf("code=1") == "code" && ValueOf("code=1") == "1" && KeyOf("state=2") == "state" && ValueOf("state=2") == "2"
  {
    hide Split, IndexOf;
    SplitJoin(["code=1", "state=2"], '&');
    assert ["code=1", "state=2"][1..] == ["state=2"];
    assert Join(["code=1", "state=2"], '&') == "code=1&state=2";
    FirstAt("code", '=', "1");
    assert "code" + ['='] + "1" == "code=1";
    FirstAt("state", '=', "2");
    assert "state" + ['='] + "2" == "state=2";
  }

  lemma QueryExampleParsed()
    ensures var parsed := ParseParams("code=1&state=2", SupportedParams(Standard));
            parsed.rest == "" && IsCallback(Standard, parsed.oauth)
  {
    hide Split, IndexOf, SupportedParams, KeyOf, ValueOf;
    var supported, ps := SupportedParams(Standard), ["code=1", "state=2"];
    QueryExamplePieces();
    StandardNames();
    assert ps[1..] == ["state=2"] && ["state=2"][1..] == [];
    assert Kept(["state=2"], supported) == [] && Kept(ps, supported) == [];
    RecognisedSnoc([], "code=1", supported);
    RecognisedSnoc(["code=1"], "state=2", supported);
    assert [] + ["code=1"] == ["code=1"] && ["code=1"] + ["state=2"] == ps;
    assert Recognised(ps, supported) == map["code" := "1", "state" := "2"];
  }

  lemma QueryAnswers(flow: Flow, url: string)
    requires IndexOf(url, '?') != -1 && IsCallback(flow, ParseParams(QueryText(url), SupportedParams(flow)).oauth)
    ensures ParseCallbackUrl(flow, Query, url).Some?
  {
    hide ParseParams, IsCallback, SupportedParams, IndexOf, QueryText;
  }

  lemma FragmentAnswers(flow: Flow, url: string, fragment: string)
    requires 0 <= IndexOf(url, '?') < IndexOf(url, '#') && url[IndexOf(url, '#')..] == fragment
    requires ParseParams(QueryText(url), SupportedParams(flow)).rest == ""
    requires IndexOf(fragment, '?') == |fragment| - 1 && fragment != ""
    requires IsCallback(flow, ParseParams(fragment, SupportedParams(flow)).oauth)
    ensures !CleansFully(flow, Query, url)
  {
    hide ParseParams, IsCallback, SupportedParams, IndexOf, QueryText;
    assert fragment[|fragment| - 1] == '?' && fragment[..|fragment|] == fragment;
  }

  /** An address whose fragment poses as an answer, and answers once the query is gone. */
  lemma FragmentPosesExample()
    ensures var url := SITE + ("?code=1&state=2" + "#x&code=1&state=2?");
            ParseCallbackUrl(Standard, Query, url).Some? && !CleansFully(Standard, Query, url)
  {
    hide ParseParams, IsCallback, SupportedParams, IndexOf, QueryText, CleansFully, ParseCallbackUrl;
    QueryExampleMarks(SITE);
    QueryExampleParsed();
    ExampleMarks("");
    assert "" + "#x&code=1&state=2?" == "#x&code=1&state=2?";
    ExampleIsCallback();
    var url := SITE + ("?code=1&state=2" + "#x&code=1&state=2?");
    QueryAnswers(Standard, url);
    FragmentAnswers(Standard, url, "#x&code=1&state=2?");
  }

  /** A piece with `=` is split at the first one. */
  lemma NamedPiece(name: string, value: string)
    requires '=' !in name
    ensures KeyOf(name + ['='] + value) == name && ValueOf(name + ['='] + value) == value
  {
    hide IndexOf;
    FirstAt(name, '=', value);
  }

  /** A piece without `=` is its own value, under a name that lacks its last character. */
  lemma BarePiece(name: string, last: char)
    requires '=' !in name && last != '='
    ensures KeyOf(name + [last]) == name && ValueOf(name + [last]) == name + [last] && KeyOf("") == ""
  {
    hide IndexOf;
    var piece := name + [last];
    assert IndexOf(piece, '=') == -1 && piece[..|piece| - 1] == name && piece[0..] == piece;
  }

  /** The names that every flow recognises. */
  const COMMON := {"state", "session_state", "kc_action_status", "kc_action", "iss", "error", "error_description", "error_uri"}

  /** The names that come with tokens in the address. */
  const TOKENS := {"access_token", "token_type", "id_token", "expires_in"}

  lemma RecognisedNames(flow: Flow, key: string)
    ensures key in SupportedParams(flow) <==>
            key in COMMON || (flow != Implicit && key == "code") || (flow != Standard && key in TOKENS)
  {
  }

  /** The text that is read as parameters; query mode swaps the bounds where the `#` comes first. */
  function AnswerText(mode: ResponseMode, url: string): Option<string> {
    var q, f := IndexOf(url, '?'), IndexOf(url, '#');
    match mode
    case Query =>
      if q == -1 then None
      else if f == -1 then Some(url[q + 1..])
      else if q < f then Some(url[q + 1..f])
      else Some(url[f..q + 1])
    case Fragment => if f == -1 then None else Some(url[f + 1..])
  }

  /** The last piece of that name has a value. */
  ghost predicate HasValue(pieces: seq<string>, name: string) {
    exists i :: 0 <= i < |pieces| && KeyOf(pieces[i]) == name && ValueOf(pieces[i]) != "" &&
      forall j :: i < j < |pieces| ==> KeyOf(pieces[j]) != name
  }

  lemma {:induction false} LastPieceOf(pieces: seq<string>, name: string) returns (i: nat)
    requires exists p :: p in pieces && KeyOf(p) == name
    ensures i < |pieces| && KeyOf(pieces[i]) == name && forall j :: i < j < |pieces| ==> KeyOf(pieces[j]) != name
  {
    hide KeyOf;
    var n := |pieces| - 1;
    if KeyOf(pieces[n]) == name {
      i := n;
    } else {
      i := LastPieceOf(pieces[..n], name);
    }
  }

  lemma HasIsHasValue(pieces: seq<string>, supported: seq<string>, name: string)
    requires name in supported
    ensures Has(Recognised(pieces, supported), name) <==> HasValue(pieces, name)
  {
    hide KeyOf, ValueOf, Recognised;
    if name in Recognised(pieces, supported) {
      RecognisedHasPiece(pieces, supported, name);
      var i := LastPieceOf(pieces, name);
      LastPieceWins(pieces, supported, i);
    }
    forall i | 0 <= i < |pieces| && KeyOf(pieces[i]) == name && forall j :: i < j < |pieces| ==> KeyOf(pieces[j]) != name
      ensures name in Recognised(pieces, supported) && Recognised(pieces, supported)[name] == ValueOf(pieces[i])
    {
      LastPieceWins(pieces, supported, i);
    }
  }

  /**
    * An address is an answer exactly when the text read has a state, and an error, an access token (implicit flow) or a
    * code (the other flows), each with a value in its last piece.
    */
  lemma AnswersExactly(flow: Flow, mode: ResponseMode, url: string)
    ensures ParseCallbackUrl(flow, mode, url).Some? <==>
            var text := AnswerText(mode, url);
            && text.Some? && var pieces := Split(text.value, '&');
               && HasValue(pieces, "state")
               && (HasValue(pieces, "error") || HasValue(pieces, if flow == Implicit then "access_token" else "code"))
  {
    hide SupportedParams, IndexOf, Split, Recognised, Kept, HasValue;
    TextIsRead(mode, url);
    var text := AnswerText(mode, url);
    if text.Some? {
      var pieces, supported := Split(text.value, '&'), SupportedParams(flow);
      RecognisedNames(flow, "state");
      RecognisedNames(flow, "error");
      RecognisedNames(flow, "code");
      RecognisedNames(flow, "access_token");
      HasIsHasValue(pieces, supported, "state");
      HasIsHasValue(pieces, supported, "error");
      HasIsHasValue(pieces, supported, if flow == Implicit then "access_token" else "code");
    }
  }

  lemma TextIsRead(mode: ResponseMode, url: string)
    ensures mode == Query && IndexOf(url, '?') != -1 ==> AnswerText(mode, url) == Some(QueryText(url))
    ensures mode == Fragment && IndexOf(url, '#') != -1 ==> AnswerText(mode, url) == Some(url[IndexOf(url, '#') + 1..])
  {
    hide IndexOf;
    var q, f := IndexOf(url, '?'), IndexOf(url, '#');
    assert q != -1 ==> url[q] == '?';
    assert f != -1 ==> url[f] == '#';
    assert url[q + 1..|url|] == url[q + 1..];
  }
}
