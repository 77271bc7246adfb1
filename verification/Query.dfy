/** Splitting a request target into path and parameters: PreParseGetParam. */
module Query {
  import opened Streams
  import opened Url

  type Params = map<seq<Byte>, seq<Byte>>
  datatype Parsed = Aborted | Parsed(path: seq<Byte>, params: Params)
  datatype Pair = Pair(key: seq<Byte>, value: seq<Byte>)

  /** std::string::find: the first position of `b`, or the length when there is none. */
  function Find(s: seq<Byte>, b: Byte): (i: nat)
    ensures i <= |s| && b !in s[..i] && (i < |s| ==> s[i] == b)
  {
    if s == [] || s[0] == b then 0
    else
      var i := 1 + Find(s[1..], b);
      assert s[..i] == [s[0]] + s[1..][..i - 1];
      i
  }

  datatype Update = Abort | Updated(params: Params)

  /** One `key=value` piece; a piece without '=' is ignored. */
  function AddPair(pair: seq<Byte>, params: Params): Update {
    var eq := Find(pair, EQUALS);
    if eq == |pair| then Updated(params)
    else
      var key, value := Decode(pair[..eq]), Decode(pair[eq + 1..]);
      if key.Ok? && value.Ok? then Updated(params[key.bytes := value.bytes]) else Abort
  }

  function ParseQuery(query: seq<Byte>, params: Params): Update
    decreases |query|
  {
    var pos := Find(query, AMPERSAND);
    if pos < |query| then
      var u := AddPair(query[..pos], params);
      if u.Updated? then ParseQuery(query[pos + 1..], u.params) else u
    else if query != [] then AddPair(query, params)
    else Updated(params)
  }

  function ParseTarget(target: seq<Byte>, params: Params): Parsed {
    var q := Find(target, QUESTION);
    if q == |target| then Parsed(target, params)
    else
      var u := ParseQuery(target[q + 1..], params);
      if u.Updated? then Parsed(target[..q], u.params) else Aborted
  }

  class Session {
    var getUrl: seq<Byte>
    var getParams: Params

    constructor ()
      ensures getUrl == [] && getParams == map[]
    {
      getUrl, getParams := [], map[];
    }

    method Store(pair: seq<Byte>) returns (ok: bool)
      modifies this`getParams
      ensures ok == AddPair(pair, old(getParams)).Updated?
      ensures ok ==> getParams == AddPair(pair, old(getParams)).params
    {
      var eq := Find(pair, EQUALS);
      if eq < |pair| {
        var key := UrlDecode(pair[..eq]);
        var value := UrlDecode(pair[eq + 1..]);
        if key.AssertionFailed? || value.AssertionFailed? {
          return false;
        }
        getParams := getParams[key.bytes := value.bytes];
      }
      return true;
    }

    /** `ok` is false when a decoder assertion aborts the process. */
    method PreParseGetParam(target: seq<Byte>) returns (ok: bool)
      modifies this
      ensures ok == ParseTarget(target, old(getParams)).Parsed?
      ensures ok ==> ParseTarget(target, old(getParams)) == Parsed(getUrl, getParams)
    {
      var queryPos := Find(target, QUESTION);
      if queryPos == |target| {
        getUrl := target;
        return true;
      }
      getUrl := target[..queryPos];
      var query := target[queryPos + 1..];
      var pos := Find(query, AMPERSAND);
      while pos < |query|
        invariant pos == Find(query, AMPERSAND)
        invariant getUrl == target[..queryPos]
        invariant ParseQuery(query, getParams) == ParseQuery(target[queryPos + 1..], old(getParams))
        decreases |query|
      {
        ok := Store(query[..pos]);
        if !ok {
          return;
        }
        query := query[pos + 1..];
        pos := Find(query, AMPERSAND);
      }
      ok := true;
      if query != [] {
        ok := Store(query);
      }
    }
  }

  // ----- what any query means, encoded or not -----

  /** A piece without '=' changes nothing and aborts nothing; any other is cut at its first '=', and sets the decoded
      key to the decoded value unless one of them does not decode. */
  lemma PieceExactly(piece: seq<Byte>, key: seq<Byte>, value: seq<Byte>, params: Params)
    ensures '=' as int !in piece ==> AddPair(piece, params) == Updated(params)
    ensures '=' as int !in key ==>
              AddPair(key + ['=' as int] + value, params) ==
              if Decode(key).Ok? && Decode(value).Ok? then Updated(params[Decode(key).bytes := Decode(value).bytes])
              else Abort
  {
    if EQUALS !in key {
      FindAt(key, EQUALS, value);
      var pair := key + [EQUALS] + value;
      assert pair[..|key|] == key && pair[|key| + 1..] == value;
    }
    if EQUALS !in piece {
      FindAt(piece, EQUALS, []);
    }
  }

  /** The pieces between the '&' take effect one after the other, also empty ones, until one aborts. */
  lemma PiecesInOrder(piece: seq<Byte>, rest: seq<Byte>, params: Params)
    requires '&' as int !in piece
    ensures ParseQuery(piece, params) == AddPair(piece, params)
    ensures ParseQuery(piece + ['&' as int] + rest, params) ==
            var u := AddPair(piece, params); if u.Updated? then ParseQuery(rest, u.params) else Abort
  {
    FindAt(piece, AMPERSAND, rest);
    var query := piece + [AMPERSAND] + rest;
    assert query[..|piece|] == piece && query[|piece| + 1..] == rest;
  }

  /** The path is what precedes the first '?', and the query all that follows it. */
  lemma TargetExactly(path: seq<Byte>, query: seq<Byte>, params: Params)
    requires '?' as int !in path
    ensures ParseTarget(path, params) == Parsed(path, params)
    ensures ParseTarget(path + ['?' as int] + query, params) ==
            var u := ParseQuery(query, params); if u.Updated? then Parsed(path, u.params) else Aborted
  {
    FindAt(path, QUESTION, query);
    var target := path + [QUESTION] + query;
    assert target[..|path|] == path && target[|path| + 1..] == query;
  }

  function EncodePair(p: Pair): seq<Byte> {
    Encode(p.key) + [EQUALS] + Encode(p.value)
  }

  /** enc(k1)=enc(v1)&enc(k2)=enc(v2)&... */
  function EncodeQuery(pairs: seq<Pair>): seq<Byte> {
    if pairs == [] then []
    else if |pairs| == 1 then EncodePair(pairs[0])
    else EncodePair(pairs[0]) + [AMPERSAND] + EncodeQuery(pairs[1..])
  }

  /** Later pairs win over earlier ones, and over what was there before. */
  function Fold(pairs: seq<Pair>, params: Params): Params {
    if pairs == [] then params else Fold(pairs[1..], params[pairs[0].key := pairs[0].value])
  }

  lemma {:induction false} FindAt(s: seq<Byte>, b: Byte, t: seq<Byte>)
    requires b !in s
    ensures Find(s + [b] + t, b) == |s|
    ensures Find(s, b) == |s|
  {
    if s != [] {
      FindAt(s[1..], b, t);
      assert (s + [b] + t)[1..] == s[1..] + [b] + t;
    }
  }

  lemma AddEncodedPair(p: Pair, params: Params)
    ensures AddPair(EncodePair(p), params) == Updated(params[p.key := p.value])
    ensures AMPERSAND !in EncodePair(p) && EncodePair(p) != []
  {
    var k, v := Encode(p.key), Encode(p.value);
    EncodeIsUrlSafe(p.key);
    EncodeIsUrlSafe(p.value);
    FindAt(k, EQUALS, v);
    assert EncodePair(p)[..|k|] == k && EncodePair(p)[|k| + 1..] == v;
    DecodeEncode(p.key);
    DecodeEncode(p.value);
  }

  lemma {:induction false} ParseEncodedQuery(pairs: seq<Pair>, params: Params)
    ensures ParseQuery(EncodeQuery(pairs), params) == Updated(Fold(pairs, params))
    decreases |pairs|
  {
    if pairs != [] {
      var first := EncodePair(pairs[0]);
      var next := params[pairs[0].key := pairs[0].value];
      AddEncodedPair(pairs[0], params);
      FindAt(first, AMPERSAND, EncodeQuery(pairs[1..]));
      if |pairs| == 1 {
        assert Fold(pairs[1..], next) == next;
      } else {
        var query := EncodeQuery(pairs);
        assert query[..|first|] == first && query[|first| + 1..] == EncodeQuery(pairs[1..]);
        ParseEncodedQuery(pairs[1..], next);
      }
    }
  }

  /** Round trip: a path without '?' and any list of byte-string pairs come back unchanged. */
  lemma QueryRoundTrip(path: seq<Byte>, pairs: seq<Pair>, params: Params)
    requires QUESTION !in path
    ensures ParseTarget(path + [QUESTION] + EncodeQuery(pairs), params) == Parsed(path, Fold(pairs, params))
    ensures ParseTarget(path, params) == Parsed(path, params)
  {
    var target := path + [QUESTION] + EncodeQuery(pairs);
    FindAt(path, QUESTION, EncodeQuery(pairs));
    assert target[..|path|] == path && target[|path| + 1..] == EncodeQuery(pairs);
    ParseEncodedQuery(pairs, params);
  }

  /** What the fold means: a key ends up with the value of its last pair, or keeps what it had. */
  lemma {:induction false} FoldIsLastPair(pairs: seq<Pair>, params: Params, key: seq<Byte>, i: nat)
    requires i < |pairs| && pairs[i].key == key && forall j :: i < j < |pairs| ==> pairs[j].key != key
    ensures key in Fold(pairs, params) && Fold(pairs, params)[key] == pairs[i].value
    decreases |pairs|
  {
    var next := params[pairs[0].key := pairs[0].value];
    if i == 0 {
      FoldKeepsOther(pairs[1..], next, key);
    } else {
      FoldIsLastPair(pairs[1..], next, key, i - 1);
    }
  }

  lemma {:induction false} FoldKeepsOther(pairs: seq<Pair>, params: Params, key: seq<Byte>)
    requires forall j :: 0 <= j < |pairs| ==> pairs[j].key != key
    ensures key in Fold(pairs, params) <==> key in params
    ensures key in params ==> Fold(pairs, params)[key] == params[key]
    decreases |pairs|
  {
    if pairs != [] {
      FoldKeepsOther(pairs[1..], params[pairs[0].key := pairs[0].value], key);
    }
  }
}
