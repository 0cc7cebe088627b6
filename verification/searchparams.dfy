/** The replay client's URL rewrite: the captured URL's query is parsed into
    name/value pairs and `lat`, `lng` and `str` are overridden with
    `URLSearchParams.set`, following section 6.2 of the WHATWG URL Standard.
    Percent-encoding and the `+`-for-space rule are not modelled: names and
    values are the text between the separators. */
module SearchParams {
  import opened Base

  type Pair = (string, string)

  /** `s.split(c)`. */
  function Split(s: string, c: char): (parts: seq<string>)
    ensures |parts| >= 1
    ensures forall i :: 0 <= i < |parts| ==> c !in parts[i] && CharsWithin(parts[i], s)
    // gluing the pieces back with `c` gives the input
    ensures Join(parts, [c]) == s
    decreases |s|
  {
    var i := IndexOf(s, c);
    if i == |s| then [s]
    else
      var rest := Split(s[i + 1..], c);
      assert ([s[..i]] + rest)[1..] == rest;
      assert s == s[..i] + [c] + s[i + 1..];
      [s[..i]] + rest
  }

  /** Every character of `t` occurs in `s`. */
  ghost predicate CharsWithin(t: string, s: string) {
    forall ch :: ch in t ==> ch in s
  }

  /** One `&`-separated piece: the name runs up to the first `=`. */
  function ParsePair(piece: string): Pair {
    var i := IndexOf(piece, '=');
    if i == |piece| then (piece, "") else (piece[..i], piece[i + 1..])
  }

  /** Empty pieces are skipped. */
  function ParsePieces(pieces: seq<string>): seq<Pair> {
    if |pieces| == 0 then []
    else if pieces[0] == "" then ParsePieces(pieces[1..])
    else [ParsePair(pieces[0])] + ParsePieces(pieces[1..])
  }

  /** The application/x-www-form-urlencoded parser. */
  function Parse(query: string): seq<Pair> {
    ParsePieces(Split(query, '&'))
  }

  function PairPieces(ps: seq<Pair>): (r: seq<string>)
    ensures |r| == |ps|
  {
    if |ps| == 0 then [] else [ps[0].0 + "=" + ps[0].1] + PairPieces(ps[1..])
  }

  /** The application/x-www-form-urlencoded serializer. */
  function Serialize(ps: seq<Pair>): string {
    Join(PairPieces(ps), "&")
  }

  /** A pair that serializes without ambiguity. */
  predicate WellFormedPair(p: Pair) {
    '&' !in p.0 && '=' !in p.0 && '&' !in p.1
  }

  predicate WellFormed(ps: seq<Pair>) {
    forall i :: 0 <= i < |ps| ==> WellFormedPair(ps[i])
  }

  /** Number of pairs named `name`. */
  function Count(ps: seq<Pair>, name: string): nat {
    if |ps| == 0 then 0 else (if ps[0].0 == name then 1 else 0) + Count(ps[1..], name)
  }

  /** `get(name)`: the value of the first pair named `name`. */
  function Lookup(ps: seq<Pair>, name: string): Option<string> {
    if |ps| == 0 then None else if ps[0].0 == name then Some(ps[0].1) else Lookup(ps[1..], name)
  }

  /** The position of the first pair named `name`, or `|ps|`. */
  function FirstIndex(ps: seq<Pair>, name: string): (i: nat)
    ensures i <= |ps|
  {
    if |ps| == 0 then 0 else if ps[0].0 == name then 0 else 1 + FirstIndex(ps[1..], name)
  }

  /** The pairs whose name is outside `names`, in their original order. */
  function Drop(ps: seq<Pair>, names: set<string>): (r: seq<Pair>)
    ensures forall p :: p in r ==> p in ps && p.0 !in names
    ensures forall p :: p in ps && p.0 !in names ==> p in r
    ensures forall n :: n in names ==> Count(r, n) == 0
  {
    if |ps| == 0 then []
    else if ps[0].0 in names then Drop(ps[1..], names)
    else [ps[0]] + Drop(ps[1..], names)
  }

  /** `URLSearchParams.set(name, value)`: the first pair named `name` takes the
      value and every later one is removed; with no such pair, one is appended. */
  function Set(ps: seq<Pair>, name: string, value: string): (r: seq<Pair>)
    ensures Count(r, name) == 1
    ensures Lookup(r, name) == Some(value)
    ensures Count(ps, name) == 0 ==> r == ps + [(name, value)]
    ensures Count(ps, name) > 0 ==> FirstIndex(r, name) == FirstIndex(ps, name)
    ensures forall p :: p in r ==> p in ps || p == (name, value)
  {
    if |ps| == 0 then [(name, value)]
    else if ps[0].0 == name then [(name, value)] + Drop(ps[1..], {name})
    else [ps[0]] + Set(ps[1..], name, value)
  }

  /** Every pair named outside `names` survives `set`, with its value and
      relative order, when the name being set is one of `names`. */
  lemma {:induction false} SetKeepsOthers(ps: seq<Pair>, name: string, value: string, names: set<string>)
    requires name in names
    ensures Drop(Set(ps, name, value), names) == Drop(ps, names)
  {
    if |ps| == 0 {
    } else if ps[0].0 == name {
      DropTwice(ps[1..], {name}, names);
    } else {
      SetKeepsOthers(ps[1..], name, value, names);
    }
  }

  lemma {:induction false} DropTwice(ps: seq<Pair>, inner: set<string>, outer: set<string>)
    requires inner <= outer
    ensures Drop(Drop(ps, inner), outer) == Drop(ps, outer)
  {
    if |ps| > 0 {
      DropTwice(ps[1..], inner, outer);
    }
  }

  /** Setting one name leaves the pairs of any other name as they were. */
  lemma {:induction false} SetOtherName(ps: seq<Pair>, name: string, value: string, other: string)
    requires other != name
    ensures Count(Set(ps, name, value), other) == Count(ps, other)
    ensures Lookup(Set(ps, name, value), other) == Lookup(ps, other)
  {
    if |ps| == 0 {
    } else if ps[0].0 == name {
      DropOtherName(ps[1..], {name}, other);
    } else {
      SetOtherName(ps[1..], name, value, other);
    }
  }

  lemma {:induction false} DropOtherName(ps: seq<Pair>, names: set<string>, other: string)
    requires other !in names
    ensures Count(Drop(ps, names), other) == Count(ps, other)
    ensures Lookup(Drop(ps, names), other) == Lookup(ps, other)
  {
    if |ps| > 0 {
      DropOtherName(ps[1..], names, other);
    }
  }

  /** The three overrides the replay client applies, in source order. */
  function Rewrite(ps: seq<Pair>, lat: string, lng: string, str: string): seq<Pair> {
    Set(Set(Set(ps, "lat", lat), "lng", lng), "str", str)
  }

  /** After the rewrite each overridden name occurs once with its new value,
      and all other pairs keep their values and relative order. */
  lemma RewriteOverrides(ps: seq<Pair>, lat: string, lng: string, str: string)
    ensures var r := Rewrite(ps, lat, lng, str);
            && Count(r, "lat") == 1 && Lookup(r, "lat") == Some(lat)
            && Count(r, "lng") == 1 && Lookup(r, "lng") == Some(lng)
            && Count(r, "str") == 1 && Lookup(r, "str") == Some(str)
            && Drop(r, {"lat", "lng", "str"}) == Drop(ps, {"lat", "lng", "str"})
  {
    var s1 := Set(ps, "lat", lat);
    var s2 := Set(s1, "lng", lng);
    var names := {"lat", "lng", "str"};
    SetOtherName(s1, "lng", lng, "lat");
    SetOtherName(s2, "str", str, "lat");
    SetOtherName(s2, "str", str, "lng");
    SetKeepsOthers(ps, "lat", lat, names);
    SetKeepsOthers(s1, "lng", lng, names);
    SetKeepsOthers(s2, "str", str, names);
  }

  lemma {:induction false} SplitJoin(parts: seq<string>, c: char)
    requires |parts| >= 1
    requires forall i :: 0 <= i < |parts| ==> c !in parts[i]
    ensures Split(Join(parts, [c]), c) == parts
  {
    var s := Join(parts, [c]);
    if |parts| == 1 {
      assert IndexOf(s, c) == |s|;
    } else {
      var rest := Join(parts[1..], [c]);
      assert s == parts[0] + [c] + rest;
      var i := IndexOf(s, c);
      assert s[|parts[0]|] == c;
      assert i == |parts[0]|;
      assert s[..i] == parts[0];
      assert s[i + 1..] == rest;
      SplitJoin(parts[1..], c);
    }
  }

  lemma {:induction false} ParseSerializedPieces(ps: seq<Pair>)
    requires WellFormed(ps)
    ensures ParsePieces(PairPieces(ps)) == ps
  {
    if |ps| > 0 {
      var piece := ps[0].0 + "=" + ps[0].1;
      assert piece[|ps[0].0|] == '=';
      assert IndexOf(piece, '=') == |ps[0].0|;
      assert piece[..|ps[0].0|] == ps[0].0;
      assert piece[|ps[0].0| + 1..] == ps[0].1;
      assert PairPieces(ps)[1..] == PairPieces(ps[1..]);
      ParseSerializedPieces(ps[1..]);
    }
  }

  lemma {:induction false} PiecesHaveNoAmpersand(ps: seq<Pair>)
    requires WellFormed(ps)
    ensures forall i :: 0 <= i < |PairPieces(ps)| ==> '&' !in PairPieces(ps)[i]
  {
    if |ps| > 0 {
      PiecesHaveNoAmpersand(ps[1..]);
      assert forall i :: 1 <= i < |ps| ==> PairPieces(ps)[i] == PairPieces(ps[1..])[i - 1];
    }
  }

  /** Parsing a serialized list of well-formed pairs gives the list back. */
  lemma ParseSerialize(ps: seq<Pair>)
    requires WellFormed(ps)
    ensures Parse(Serialize(ps)) == ps
  {
    if |ps| == 0 {
      assert Split("", '&') == [""];
    } else {
      PiecesHaveNoAmpersand(ps);
      SplitJoin(PairPieces(ps), '&');
      ParseSerializedPieces(ps);
    }
  }

  /** Neither names nor values contain `c`. */
  predicate Avoids(ps: seq<Pair>, c: char) {
    forall i :: 0 <= i < |ps| ==> c !in ps[i].0 && c !in ps[i].1
  }

  lemma {:induction false} ParsePiecesShape(pieces: seq<string>, c: char)
    requires forall i :: 0 <= i < |pieces| ==> '&' !in pieces[i] && c !in pieces[i]
    ensures WellFormed(ParsePieces(pieces))
    ensures Avoids(ParsePieces(pieces), c)
  {
    if |pieces| > 0 {
      ParsePiecesShape(pieces[1..], c);
      if pieces[0] != "" {
        var piece := pieces[0];
        var i := IndexOf(piece, '=');
        if i < |piece| {
          assert forall ch :: ch in piece[..i] ==> ch in piece;
          assert forall ch :: ch in piece[i + 1..] ==> ch in piece;
        }
      }
    }
  }

  /** The parser only produces well-formed pairs, and a character absent from
      the query is absent from every name and value. */
  lemma ParseShape(query: string, c: char)
    requires c !in query
    ensures WellFormed(Parse(query))
    ensures Avoids(Parse(query), c)
  {
    ParsePiecesShape(Split(query, '&'), c);
  }

  lemma {:induction false} SetAvoids(ps: seq<Pair>, name: string, value: string, c: char)
    requires Avoids(ps, c) && c !in name && c !in value
    ensures Avoids(Set(ps, name, value), c)
  {
    var r := Set(ps, name, value);
    forall i | 0 <= i < |r| ensures c !in r[i].0 && c !in r[i].1 {
      assert r[i] in r;
      if r[i] != (name, value) {
        var k :| 0 <= k < |ps| && ps[k] == r[i];
      }
    }
  }

  lemma {:induction false} SetWellFormed(ps: seq<Pair>, name: string, value: string)
    requires WellFormed(ps) && WellFormedPair((name, value))
    ensures WellFormed(Set(ps, name, value))
  {
    var r := Set(ps, name, value);
    forall i | 0 <= i < |r| ensures WellFormedPair(r[i]) {
      assert r[i] in r;
      if r[i] != (name, value) {
        var k :| 0 <= k < |ps| && ps[k] == r[i];
      }
    }
  }

  lemma {:induction false} SerializeAvoids(ps: seq<Pair>, c: char)
    requires Avoids(ps, c) && c != '&' && c != '='
    ensures c !in Serialize(ps)
    decreases |ps|
  {
    if |ps| > 1 {
      SerializeAvoids(ps[1..], c);
      assert PairPieces(ps)[1..] == PairPieces(ps[1..]);
    }
  }

  /** A URL cut at its first `#` (the fragment, kept with its `#`) and, before
      that, at its first `?` (the query, without its `?`). Scheme, host and
      path stay together in `beforeQuery`. */
  datatype Url = Url(beforeQuery: string, query: Option<string>, fragment: string)

  function SplitUrl(s: string): (u: Url)
    ensures '?' !in u.beforeQuery && '#' !in u.beforeQuery
    ensures u.query.Some? ==> '#' !in u.query.value
  {
    var h := IndexOf(s, '#');
    var q := IndexOf(s[..h], '?');
    Url(s[..q], if q < h then Some(s[q + 1..h]) else None, s[h..])
  }

  /** `URL.toString()`. */
  function UrlString(u: Url): string {
    u.beforeQuery + (if u.query.Some? then "?" + u.query.value else "") + u.fragment
  }

  /** Cutting a URL apart loses nothing. */
  lemma UrlRoundTrip(s: string)
    ensures UrlString(SplitUrl(s)) == s
  {
    var h := IndexOf(s, '#');
    var q := IndexOf(s[..h], '?');
    assert s == s[..h] + s[h..];
    assert s[..h] == s[..q] + s[q..h];
    if q < h {
      assert s[q] == s[..h][q] == '?';
      assert s[q..h] == "?" + s[q + 1..h];
    }
  }

  function QueryPairs(u: Url): seq<Pair> {
    if u.query.Some? then Parse(u.query.value) else []
  }

  /** The URL the replay client requests: the captured URL with its query
      rewritten. */
  function ReplayUrl(captured: string, lat: string, lng: string, str: string): string {
    var u := SplitUrl(captured);
    UrlString(u.(query := Some(Serialize(Rewrite(QueryPairs(u), lat, lng, str)))))
  }

  lemma SplitComposed(u: Url)
    requires '?' !in u.beforeQuery && '#' !in u.beforeQuery
    requires u.query.Some? && '#' !in u.query.value
    requires u.fragment == [] || u.fragment[0] == '#'
    ensures SplitUrl(UrlString(u)) == u
  {
    var s := UrlString(u);
    var b := |u.beforeQuery|;
    var qs := u.query.value;
    var h := b + 1 + |qs|;
    assert s == u.beforeQuery + ("?" + qs) + u.fragment;
    assert s[..h] == u.beforeQuery + "?" + qs;
    forall j | 0 <= j < h ensures s[j] != '#' {
      if j < b {
        assert s[j] == u.beforeQuery[j];
      } else if j > b {
        assert s[j] == qs[j - b - 1];
      }
    }
    if h < |s| {
      assert s[h] == u.fragment[0];
    }
    IndexOfAt(s, '#', h);
    forall j | 0 <= j < b ensures s[..h][j] != '?' {
      assert s[..h][j] == u.beforeQuery[j];
    }
    IndexOfAt(s[..h], '?', b);
    assert s[h..] == u.fragment;
  }

  /** The replayed URL keeps everything before the query and the fragment of
      the captured one, and its query parses to the rewritten pairs. Override
      values must not contain `&` or `#`, which the real serializer
      percent-encodes. */
  lemma ReplayUrlQuery(captured: string, lat: string, lng: string, str: string)
    requires '&' !in lat && '#' !in lat
    requires '&' !in lng && '#' !in lng
    requires '&' !in str && '#' !in str
    ensures var u := SplitUrl(captured);
            var r := SplitUrl(ReplayUrl(captured, lat, lng, str));
            && r.beforeQuery == u.beforeQuery
            && r.fragment == u.fragment
            && QueryPairs(r) == Rewrite(QueryPairs(u), lat, lng, str)
  {
    var u := SplitUrl(captured);
    var ps := QueryPairs(u);
    if u.query.Some? {
      ParseShape(u.query.value, '#');
    }
    var s1 := Set(ps, "lat", lat);
    var s2 := Set(s1, "lng", lng);
    var s3 := Set(s2, "str", str);
    SetAvoids(ps, "lat", lat, '#');
    SetAvoids(s1, "lng", lng, '#');
    SetAvoids(s2, "str", str, '#');
    SetWellFormed(ps, "lat", lat);
    SetWellFormed(s1, "lng", lng);
    SetWellFormed(s2, "str", str);
    SerializeAvoids(s3, '#');
    var h := IndexOf(captured, '#');
    assert u.fragment == [] || u.fragment[0] == '#';
    SplitComposed(u.(query := Some(Serialize(s3))));
    ParseSerialize(s3);
  }
}
