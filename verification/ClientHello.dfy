/**
  The ClientHello reader of packages/mitm/src/ja3_addon.py (14-75) and the serialisation it undoes
  (section 7.4.1.2 of RFC 5246). Every read is checked: where Python raises, the result is an error.
*/
module ClientHello {
  import opened Prelude
  import opened Decimals

  type byte = x: int | 0 <= x < 256
  type word = x: int | 0 <= x < 65536

  /** GREASE values, section 2 of RFC 8701. */
  predicate IsGrease(v: int) { exists i :: 0 <= i < 16 && v == 0x0A0A + 0x1010 * i }

  /** They are the words of two equal bytes that end in the digit A. */
  lemma GreaseShape(v: word)
    ensures IsGrease(v) <==> v / 256 == v % 256 && v % 16 == 10
  {
    var low := v % 256;
    if v / 256 == low && v % 16 == 10 { GreaseDigits(low); }
    forall i | 0 <= i < 16 && v == 0x0A0A + 0x1010 * i ensures v / 256 == low && v % 16 == 10 { GreaseBytes(i); }
  }

  lemma GreaseBytes(i: int)
    requires 0 <= i < 16
    ensures var v := 0x0A0A + 0x1010 * i; v / 256 == 16 * i + 10 && v % 256 == 16 * i + 10 && v % 16 == 10
  {
    assert 0x0A0A + 0x1010 * i == 256 * (16 * i + 10) + (16 * i + 10);
  }

  lemma GreaseDigits(low: int)
    requires 0 <= low < 256 && (257 * low) % 16 == 10
    ensures 0 <= low / 16 < 16 && 257 * low == 0x0A0A + 0x1010 * (low / 16)
  {
    assert (257 * low) % 16 == low % 16 by { assert 257 * low == 16 * (16 * low) + low; }
  }

  function WithoutGrease(values: seq<word>): (kept: seq<word>)
    ensures forall v | v in kept :: !IsGrease(v)
  {
    if values == [] then []
    else (if IsGrease(values[0]) then [] else [values[0]]) + WithoutGrease(values[1..])
  }

  lemma GreaseHead(a: seq<word>)
    requires a != []
    ensures WithoutGrease(a) == (if IsGrease(a[0]) then [] else [a[0]]) + WithoutGrease(a[1..])
  {
  }

  /** The others stay in order: the removal works piece by piece. */
  lemma {:induction false} GreaseByPieces(a: seq<word>, b: seq<word>)
    ensures WithoutGrease(a + b) == WithoutGrease(a) + WithoutGrease(b)
  {
    if a == [] {
      assert a + b == b;
    } else {
      GreaseHead(a + b);
      GreaseHead(a);
      assert (a + b)[0] == a[0] && (a + b)[1..] == a[1..] + b;
      hide *;
      GreaseByPieces(a[1..], b);
      Grouped(if IsGrease(a[0]) then [] else [a[0]], WithoutGrease(a[1..]), WithoutGrease(b));
    }
  }

  lemma Grouped(a: seq<word>, b: seq<word>, c: seq<word>)
    ensures a + (b + c) == (a + b) + c
  {
  }

  /** Exactly the GREASE values go; the others stay as often as they were. */
  lemma {:induction false} OnlyGreaseGoes(a: seq<word>, v: word)
    ensures multiset(WithoutGrease(a))[v] == if IsGrease(v) then 0 else multiset(a)[v]
  {
    hide IsGrease;
    if a != [] {
      OnlyGreaseGoes(a[1..], v);
      assert a == [a[0]] + a[1..];
    }
  }

  // ---------- reading ----------

  /** What the loop over the extensions has found. */
  datatype Found = Found(types: seq<word>, groups: seq<word>, points: seq<byte>)

  datatype Fingerprint = Fingerprint(version: word, ciphers: seq<word>, extensions: seq<word>, groups: seq<word>,
      points: seq<byte>)

  function WordAt(data: seq<byte>, i: nat): word
    requires i + 2 <= |data|
  {
    data[i] as int * 256 + data[i + 1] as int
  }

  /** [_u16(data, index) for index in range(from, to, 2)]: an odd last byte still reads two. */
  function Words(data: seq<byte>, from: nat, to: int): Result<seq<word>>
    decreases to - from
  {
    if from >= to then Ok([])
    else if from + 2 > |data| then Error("unpack_from requires a larger buffer")
    else
      match Words(data, from + 2, to)
      case Ok(rest) => Ok([WordAt(data, from)] + rest)
      case Error(m) => Error(m)
  }

  function Slice(data: seq<byte>, from: nat, to: nat): seq<byte>
    requires from <= to
  {
    data[(if from <= |data| then from else |data|)..(if to <= |data| then to else |data|)]
  }

  /** One extension; a repeated type replaces what was found before. */
  function Extension(found: Found, kind: word, body: seq<byte>): Result<Found> {
    var f := found.(types := found.types + [kind]);
    if kind == 10 && |body| >= 2 then
      match Words(body, 2, Min(|body|, 2 + WordAt(body, 0)))
      case Ok(groups) => Ok(f.(groups := groups))
      case Error(m) => Error(m)
    else if kind == 11 && |body| > 0 then Ok(f.(points := Slice(body, 1, 1 + body[0] as int)))
    else Ok(f)
  }

  function Extensions(raw: seq<byte>, offset: nat, end: int, found: Found): Result<Found>
    requires end <= |raw|
    decreases end - offset
  {
    if offset + 4 > end then Ok(found)
    else
      var size := WordAt(raw, offset + 2);
      match Extension(found, WordAt(raw, offset), Slice(raw, offset + 4, offset + 4 + size))
      case Ok(next) => Extensions(raw, offset + 4 + size, end, next)
      case Error(m) => Error(m)
  }

  function Summary(version: word, ciphers: seq<word>, found: Found): Fingerprint {
    Fingerprint(version, WithoutGrease(ciphers), WithoutGrease(found.types), WithoutGrease(found.groups), found.points)
  }

  /** The extension block, when there is room for one. */
  function Block(raw: seq<byte>, offset: nat): Result<Found> {
    if offset + 2 <= |raw|
      then Extensions(raw, offset + 2, Min(|raw|, offset + 2 + WordAt(raw, offset)), Found([], [], []))
    else Ok(Found([], [], []))
  }

  /** From the compression methods on. */
  function ParseRest(raw: seq<byte>, ciphers: seq<word>, methodsAt: nat): Result<Fingerprint>
    requires 2 <= |raw|
  {
    if methodsAt >= |raw| then Error("index out of range")
    else
      match Block(raw, methodsAt + 1 + raw[methodsAt] as int)
      case Error(m) => Error(m)
      case Ok(found) => Ok(Summary(WordAt(raw, 0), ciphers, found))
  }

  /** _parse_client_hello, up to the rendering as a string. */
  function Parse(raw: seq<byte>): Result<Fingerprint> {
    if 35 > |raw| then Error("index out of range")
    else
      var ciphersAt := 35 + raw[34] as int;
      if ciphersAt + 2 > |raw| then Error("unpack_from requires a larger buffer")
      else
        var methodsAt := ciphersAt + 2 + WordAt(raw, ciphersAt);
        match Words(raw, ciphersAt + 2, methodsAt)
        case Error(m) => Error(m)
        case Ok(ciphers) => ParseRest(raw, ciphers, methodsAt)
  }

  // ---------- writing ----------

  datatype Ext = Groups(groups: seq<word>) | Points(points: seq<byte>) | Other(kind: word, body: seq<byte>)

  datatype Hello = Hello(
    version: word, random: seq<byte>, session: seq<byte>, ciphers: seq<word>, methods: seq<byte>,
      extensions: Option<seq<Ext>>)

  function Pair(w: word): (r: seq<byte>)
    ensures |r| == 2
  {
    [w / 256, w % 256]
  }

  function Pairs(ws: seq<word>): (r: seq<byte>)
    ensures |r| == 2 * |ws|
  {
    if ws == [] then [] else Pair(ws[0]) + Pairs(ws[1..])
  }

  function Kind(e: Ext): word {
    match e
    case Groups(_) => 10
    case Points(_) => 11
    case Other(kind, _) => kind
  }

  ghost predicate ValidExt(e: Ext) {
    match e
    case Groups(groups) => 2 * |groups| + 2 < 65536
    case Points(points) => |points| < 256
    case Other(kind, body) => kind != 10 && kind != 11 && |body| < 65536
  }

  function Body(e: Ext): seq<byte>
    requires ValidExt(e)
  {
    match e
    case Groups(groups) => Pair(2 * |groups|) + Pairs(groups)
    case Points(points) => [|points|] + points
    case Other(_, body) => body
  }

  function Written(e: Ext): (r: seq<byte>)
    requires ValidExt(e)
    ensures |r| == 4 + |Body(e)|
  {
    Pair(Kind(e)) + Pair(|Body(e)|) + Body(e)
  }

  function AllWritten(es: seq<Ext>): seq<byte>
    requires forall e | e in es :: ValidExt(e)
  {
    if es == [] then [] else Written(es[0]) + AllWritten(es[1..])
  }

  /** Lengths fit their fields, and no extension type is repeated. */
  ghost predicate ValidHello(h: Hello) {
    && |h.random| == 32 && |h.session| <= 32 && 2 * |h.ciphers| < 65536 && |h.methods| < 256
    && (h.extensions.Some? ==>
          && (forall e | e in h.extensions.value :: ValidExt(e))
          && |AllWritten(h.extensions.value)| < 65536
          && forall i, k | 0 <= i < k < |h.extensions.value| ::
              Kind(h.extensions.value[i]) != Kind(h.extensions.value[k]))
  }

  function ExtensionBlock(h: Hello): seq<byte>
    requires ValidHello(h)
  {
    if h.extensions.None? then []
    else Pair(|AllWritten(h.extensions.value)|) + AllWritten(h.extensions.value)
  }

  function Serialise(h: Hello): seq<byte>
    requires ValidHello(h)
  {
    Pair(h.version) + h.random + [|h.session|] + h.session
    + Pair(2 * |h.ciphers|) + Pairs(h.ciphers) + [|h.methods|] + h.methods + ExtensionBlock(h)
  }

  // ---------- the round trip ----------

  lemma PairRead(before: seq<byte>, w: word, after: seq<byte>)
    ensures WordAt(before + Pair(w) + after, |before|) == w
  {
    var data := before + Pair(w) + after;
    assert data[|before|] == w / 256 && data[|before| + 1] == w % 256;
  }

  lemma Nest(a: seq<byte>, b: seq<byte>, c: seq<byte>, d: seq<byte>)
    ensures a + (b + c) + d == a + b + (c + d) == (a + b) + c + d
  {
  }

  /** The words stand in the data from a position on. */
  ghost predicate Holds(data: seq<byte>, at: nat, ws: seq<word>) {
    at + 2 * |ws| <= |data| && forall i {:trigger ws[i]} | 0 <= i < |ws| :: WordAt(data, at + 2 * i) == ws[i]
  }

  lemma {:induction false} WordsRead(data: seq<byte>, at: nat, ws: seq<word>, to: int)
    requires Holds(data, at, ws) && to == at + 2 * |ws|
    ensures Words(data, at, to) == Ok(ws)
    decreases |ws|
  {
    if ws != [] {
      hide WordAt;
      var rest := ws[1..];
      assert WordAt(data, at + 2 * 0) == ws[0];
      forall i {:trigger rest[i]} | 0 <= i < |rest| ensures WordAt(data, at + 2 + 2 * i) == rest[i] {
        assert WordAt(data, at + 2 * (i + 1)) == ws[i + 1];
      }
      WordsRead(data, at + 2, rest, to);
      assert [ws[0]] + rest == ws;
    }
  }

  lemma {:induction false} PairsAt(ws: seq<word>, i: nat)
    requires i < |ws|
    ensures Pairs(ws)[2 * i] == ws[i] / 256 && Pairs(ws)[2 * i + 1] == ws[i] % 256
    decreases ws
  {
    var head, tail := Pair(ws[0]), Pairs(ws[1..]);
    if i > 0 {
      PairsAt(ws[1..], i - 1);
      assert (head + tail)[2 * i] == tail[2 * (i - 1)] && (head + tail)[2 * i + 1] == tail[2 * (i - 1) + 1];
    }
  }

  lemma PairsRead(before: seq<byte>, ws: seq<word>, after: seq<byte>)
    ensures Words(before + Pairs(ws) + after, |before|, |before| + 2 * |ws|) == Ok(ws)
  {
    hide Words, Pairs;
    var data, pairs := before + Pairs(ws) + after, Pairs(ws);
    forall i {:trigger ws[i]} | 0 <= i < |ws| ensures WordAt(data, |before| + 2 * i) == ws[i] {
      PairsAt(ws, i);
      assert data[|before| + 2 * i] == pairs[2 * i] && data[|before| + 2 * i + 1] == pairs[2 * i + 1];
    }
    WordsRead(data, |before|, ws, |before| + 2 * |ws|);
  }

  /** What one extension adds to what was found. */
  function With(found: Found, e: Ext): Found {
    var f := found.(types := found.types + [Kind(e)]);
    match e
    case Groups(groups) => f.(groups := groups)
    case Points(points) => f.(points := points)
    case Other(_, _) => f
  }

  lemma ExtensionRead(found: Found, e: Ext)
    requires ValidExt(e)
    ensures Extension(found, Kind(e), Body(e)) == Ok(With(found, e))
  {
    match e
    case Groups(groups) =>
      var body := Body(e);
      assert body == [] + Pair(2 * |groups|) + Pairs(groups);
      PairRead([], 2 * |groups|, Pairs(groups));
      PairsRead(Pair(2 * |groups|), groups, []);
      assert body == Pair(2 * |groups|) + Pairs(groups) + [];
    case Points(points) => assert Slice(Body(e), 1, 1 + |points|) == points;
    case Other(_, _) =>
  }

  function WithAll(found: Found, es: seq<Ext>): Found
    decreases |es|
  {
    if es == [] then found else WithAll(With(found, es[0]), es[1..])
  }

  lemma {:induction false} ExtensionsRead(before: seq<byte>, es: seq<Ext>, found: Found)
    requires forall e | e in es :: ValidExt(e)
    ensures var raw := before + AllWritten(es); Extensions(raw, |before|, |raw|, found) == Ok(WithAll(found, es))
    decreases es
  {
    var raw := before + AllWritten(es);
    if es != [] {
      var e, rest := es[0], AllWritten(es[1..]);
      var body := Body(e);
      assert raw == before + Pair(Kind(e)) + (Pair(|body|) + body + rest);
      PairRead(before, Kind(e), Pair(|body|) + body + rest);
      assert raw == (before + Pair(Kind(e))) + Pair(|body|) + (body + rest);
      PairRead(before + Pair(Kind(e)), |body|, body + rest);
      assert raw == (before + Pair(Kind(e)) + Pair(|body|)) + body + rest;
      SliceRead(before + Pair(Kind(e)) + Pair(|body|), body, rest);
      ExtensionRead(found, e);
      assert raw == (before + Written(e)) + rest;
      ExtensionsRead(before + Written(e), es[1..], With(found, e));
      hide WordAt, Slice, Extension, With, Pair;
    }
  }

  lemma SliceRead(before: seq<byte>, body: seq<byte>, after: seq<byte>)
    ensures Slice(before + body + after, |before|, |before| + |body|) == body
  {
  }

  // What the well-formed extension list says.

  function Kinds(es: seq<Ext>): seq<word> { seq(|es|, i requires 0 <= i < |es| => Kind(es[i])) }

  function GroupsOf(es: seq<Ext>): seq<word> {
    if es == [] then [] else if es[0].Groups? then es[0].groups else GroupsOf(es[1..])
  }

  function PointsOf(es: seq<Ext>): seq<byte> {
    if es == [] then [] else if es[0].Points? then es[0].points else PointsOf(es[1..])
  }

  lemma {:induction false} WithAllIs(found: Found, es: seq<Ext>)
    requires forall e | e in es :: ValidExt(e)
    requires forall i, k | 0 <= i < k < |es| :: Kind(es[i]) != Kind(es[k])
    ensures var all := WithAll(found, es);
      && all.types == found.types + Kinds(es)
      && all.groups == (if exists i :: 0 <= i < |es| && es[i].Groups? then GroupsOf(es) else found.groups)
      && all.points == (if exists i :: 0 <= i < |es| && es[i].Points? then PointsOf(es) else found.points)
    decreases es
  {
    if es != [] {
      var rest := es[1..];
      WithAllIs(With(found, es[0]), rest);
      assert Kinds(es) == [Kind(es[0])] + Kinds(rest);
      assert forall i | 0 <= i < |rest| :: rest[i] == es[i + 1];
      assert es[0].Groups? ==> forall i | 0 <= i < |rest| :: Kind(rest[i]) != 10;
      assert es[0].Points? ==> forall i | 0 <= i < |rest| :: Kind(rest[i]) != 11;
    }
  }

  lemma {:induction false} NothingOf(es: seq<Ext>)
    ensures !(exists i :: 0 <= i < |es| && es[i].Groups?) ==> GroupsOf(es) == []
    ensures !(exists i :: 0 <= i < |es| && es[i].Points?) ==> PointsOf(es) == []
  {
    if es != [] {
      NothingOf(es[1..]);
      assert forall i | 0 <= i < |es| - 1 :: es[1..][i] == es[i + 1];
    }
  }

  lemma FoundIs(es: seq<Ext>)
    requires forall e | e in es :: ValidExt(e)
    requires forall i, k | 0 <= i < k < |es| :: Kind(es[i]) != Kind(es[k])
    ensures WithAll(Found([], [], []), es) == Found(Kinds(es), GroupsOf(es), PointsOf(es))
  {
    WithAllIs(Found([], [], []), es);
    NothingOf(es);
    hide WithAll, GroupsOf, PointsOf, Kinds;
    assert [] + Kinds(es) == Kinds(es);
  }

  lemma BlockRead(before: seq<byte>, h: Hello)
    requires ValidHello(h)
    ensures Block(before + ExtensionBlock(h), |before|)
         == Ok(WithAll(Found([], [], []), if h.extensions.Some? then h.extensions.value else []))
  {
    if h.extensions.Some? {
      var es := h.extensions.value;
      var raw := before + ExtensionBlock(h);
      assert raw == before + Pair(|AllWritten(es)|) + AllWritten(es);
      PairRead(before, |AllWritten(es)|, AllWritten(es));
      ExtensionsRead(before + Pair(|AllWritten(es)|), es, Found([], [], []));
    }
  }

  function Opening(h: Hello): seq<byte>
    requires |h.session| < 256
  {
    Pair(h.version) + h.random + [|h.session|] + h.session
  }

  function Closing(h: Hello, block: seq<byte>): seq<byte>
    requires |h.methods| < 256
  {
    [|h.methods|] + h.methods + block
  }

  /** Where everything stands. */
  lemma Layout(h: Hello)
    requires ValidHello(h)
    ensures |h.session| < 256 && |h.methods| < 256
    ensures var raw, block, start := Serialise(h), ExtensionBlock(h), Opening(h);
      && raw == start + Pair(2 * |h.ciphers|) + Pairs(h.ciphers) + Closing(h, block)
      && |start| == 35 + |h.session| && start[34] == |h.session|
      && |Closing(h, block)| == 1 + |h.methods| + |block| && Closing(h, block)[0] == |h.methods|
      && Closing(h, block)[1 + |h.methods|..] == block
      && start[..2] == Pair(h.version)
  {
    hide ExtensionBlock, Pairs, Pair;
    var block := ExtensionBlock(h);
    assert Serialise(h) == Opening(h) + Pair(2 * |h.ciphers|) + Pairs(h.ciphers) + Closing(h, block);
  }

  lemma HeadRead(h: Hello)
    requires ValidHello(h)
    ensures var raw, block := Serialise(h), ExtensionBlock(h);
      && |raw| >= 35 && raw[34] == |h.session| && WordAt(raw, 0) == h.version
      && var at := 35 + |h.session|;
      && |raw| == at + 2 + 2 * |h.ciphers| + 1 + |h.methods| + |block|
      && WordAt(raw, at) == 2 * |h.ciphers|
      && Words(raw, at + 2, at + 2 + 2 * |h.ciphers|) == Ok(h.ciphers)
      && raw[at + 2 + 2 * |h.ciphers|] == |h.methods|
      && raw == raw[..|raw| - |block|] + block
  {
    Layout(h);
    assert 2 * |h.ciphers| < 65536;
    hide *;
    HeadOf(Serialise(h), Opening(h), h.version, h.ciphers, Closing(h, ExtensionBlock(h)), |h.session|, |h.methods|,
      ExtensionBlock(h));
  }

  lemma HeadOf(raw: seq<byte>, start: seq<byte>, version: word, ciphers: seq<word>, tail: seq<byte>, session: byte,
      methods: byte, block: seq<byte>)
    requires 2 * |ciphers| < 65536 && raw == start + Pair(2 * |ciphers|) + Pairs(ciphers) + tail
    requires |start| == 35 + session as int && start[34] == session && start[..2] == Pair(version)
    requires |tail| == 1 + methods as int + |block| && tail[0] == methods && tail[1 + methods as int..] == block
    ensures raw[34] == session && WordAt(raw, 0) == version && WordAt(raw, |start|) == 2 * |ciphers|
    ensures Words(raw, |start| + 2, |start| + 2 + 2 * |ciphers|) == Ok(ciphers)
    ensures |raw| == |start| + 2 + 2 * |ciphers| + |tail| && raw[|start| + 2 + 2 * |ciphers|] == methods
    ensures raw == raw[..|raw| - |block|] + block
  {
    hide *;
    var pair, pairs := Pair(2 * |ciphers|), Pairs(ciphers);
    CiphersRead(start, ciphers, tail);
    StartsWith(raw, start, pair, pairs, tail, version);
    Ends(raw, start + pair + pairs, tail, block);
  }

  lemma CiphersRead(start: seq<byte>, ciphers: seq<word>, tail: seq<byte>)
    requires 2 * |ciphers| < 65536
    ensures var raw := start + Pair(2 * |ciphers|) + Pairs(ciphers) + tail;
      && WordAt(raw, |start|) == 2 * |ciphers| && Words(raw, |start| + 2, |start| + 2 + 2 * |ciphers|) == Ok(ciphers)
  {
    hide *;
    var pair, pairs := Pair(2 * |ciphers|), Pairs(ciphers);
    Nest(start, pair, pairs, tail);
    PairRead(start, 2 * |ciphers|, pairs + tail);
    PairsRead(start + pair, ciphers, tail);
  }

  lemma StartsWith(raw: seq<byte>, start: seq<byte>, b: seq<byte>, c: seq<byte>, d: seq<byte>, version: word)
    requires raw == start + b + c + d && 35 <= |start| && start[..2] == Pair(version)
    ensures WordAt(raw, 0) == version && raw[34] == start[34]
  {
    assert raw[0] == start[..2][0] && raw[1] == start[..2][1];
  }

  lemma Ends(raw: seq<byte>, before: seq<byte>, tail: seq<byte>, block: seq<byte>)
    requires raw == before + tail && |block| < |tail| && tail[|tail| - |block|..] == block
    ensures raw == raw[..|raw| - |block|] + block && raw[|before|] == tail[0]
  {
  }

  lemma ValidParts(h: Hello)
    requires ValidHello(h)
    ensures var es := if h.extensions.Some? then h.extensions.value else [];
      (forall e | e in es :: ValidExt(e)) && forall i, k | 0 <= i < k < |es| :: Kind(es[i]) != Kind(es[k])
  {
    hide AllWritten;
  }

  /**
    Reading undoes writing: a well-formed ClientHello is read back in order, with exactly the GREASE
    values left out.
  */
  lemma ParseSerialised(h: Hello)
    requires ValidHello(h)
    ensures var es := if h.extensions.Some? then h.extensions.value else [];
      Parse(Serialise(h))
      == Ok(Fingerprint(h.version, WithoutGrease(h.ciphers), WithoutGrease(Kinds(es)), WithoutGrease(GroupsOf(es)),
        PointsOf(es)))
  {
    hide *;
    var raw, block := Serialise(h), ExtensionBlock(h);
    var es := if h.extensions.Some? then h.extensions.value else [];
    ValidParts(h);
    HeadRead(h);
    BlockRead(raw[..|raw| - |block|], h);
    var found := WithAll(Found([], [], []), es);
    ParseParts(raw, 35 + |h.session|, 2 * |h.ciphers|, h.ciphers, |h.methods|, found, h.version);
    FoundIs(es);
    SummaryIs(h.version, h.ciphers, found);
  }

  lemma SummaryIs(version: word, ciphers: seq<word>, found: Found)
    ensures Summary(version, ciphers, found)
         == Fingerprint(version, WithoutGrease(ciphers), WithoutGrease(found.types), WithoutGrease(found.groups),
           found.points)
  {
  }

  lemma ParseParts(raw: seq<byte>, at: nat, size: nat, ciphers: seq<word>, methods: nat, found: Found, version: word)
    requires 35 <= at && |raw| >= at + 2 + size + 1 + methods && raw[34] as int == at - 35
    requires WordAt(raw, 0) == version && WordAt(raw, at) == size && Words(raw, at + 2, at + 2 + size) == Ok(ciphers)
    requires raw[at + 2 + size] as int == methods && Block(raw, at + 2 + size + 1 + methods) == Ok(found)
    ensures Parse(raw) == Ok(Summary(version, ciphers, found))
  {
    RestParts(raw, ciphers, at + 2 + size, methods, found, version);
    hide WordAt, Words, Block, Summary, ParseRest;
  }

  lemma RestParts(raw: seq<byte>, ciphers: seq<word>, at: nat, methods: nat, found: Found, version: word)
    requires 2 <= |raw| && at < |raw| && raw[at] == methods && WordAt(raw, 0) == version
      && Block(raw, at + 1 + methods) == Ok(found)
    ensures ParseRest(raw, ciphers, at) == Ok(Summary(version, ciphers, found))
  {
    hide WordAt, Block, Summary;
  }

  // ---------- the reader's loop ----------

  /** _parse_client_hello with its cursor. */
  method ParseClientHello(raw: seq<byte>) returns (r: Result<Fingerprint>)
    ensures r == Parse(raw)
  {
    hide Words, Extension, WordAt, Summary;
    if |raw| < 35 { return Error("index out of range"); }
    var version, offset := WordAt(raw, 0), 34;
    offset := offset + 1 + raw[offset] as int;
    if offset + 2 > |raw| { return Error("unpack_from requires a larger buffer"); }
    var cipherLength := WordAt(raw, offset);
    offset := offset + 2;
    var ciphers := Words(raw, offset, offset + cipherLength);
    if ciphers.Error? { return Error(ciphers.message); }
    offset := offset + cipherLength;
    if offset >= |raw| { return Error("index out of range"); }
    offset := offset + 1 + raw[offset] as int;
    var found := ReadBlock(raw, offset);
    hide Block;
    if found.Error? { return Error(found.message); }
    r := Ok(Summary(version, ciphers.value, found.value));
  }

  method ReadBlock(raw: seq<byte>, start: nat) returns (r: Result<Found>)
    ensures r == Block(raw, start)
  {
    hide Extension, WordAt, Slice;
    var offset, found := start, Found([], [], []);
    if offset + 2 <= |raw| {
      var end := Min(|raw|, offset + 2 + WordAt(raw, offset));
      offset := offset + 2;
      while offset + 4 <= end
        invariant 0 <= offset && end <= |raw|
        invariant Extensions(raw, offset, end, found) == Block(raw, start)
        decreases end - offset
      {
        var kind, size := WordAt(raw, offset), WordAt(raw, offset + 2);
        var next := Extension(found, kind, Slice(raw, offset + 4, offset + 4 + size));
        if next.Error? { return next; }
        found := next.value;
        offset := offset + 4 + size;
      }
    }
    r := Ok(found);
  }

  // ---------- the rendering ----------

  function Join(parts: seq<string>, sep: char): string {
    if parts == [] then "" else if |parts| == 1 then parts[0] else parts[0] + [sep] + Join(parts[1..], sep)
  }

  function Numerals(values: seq<nat>): (ns: seq<string>)
    ensures |ns| == |values|
  {
    if values == [] then [] else [Decimal(values[0])] + Numerals(values[1..])
  }

  function Dashed(values: seq<nat>): string { Join(Numerals(values), '-') }

  function Parts(f: Fingerprint): seq<string> {
    [Decimal(f.version), Dashed(f.ciphers), Dashed(f.extensions), Dashed(f.groups), Dashed(f.points)]
  }

  function Ja3Raw(f: Fingerprint): string { Join(Parts(f), ',') }

  ghost predicate Without(parts: seq<string>, sep: char) { forall p, c | p in parts && c in p :: c != sep }

  /** Joined pieces that do not hold the separator are told apart at its first occurrence. */
  lemma FirstPiece(a: string, b: string, sep: char, s: string, t: string)
    requires sep !in a && sep !in b && a + [sep] + s == b + [sep] + t
    ensures a == b && s == t
  {
    var x := a + [sep] + s;
    assert x[|a|] == sep && x[|b|] == sep;
    assert forall i | 0 <= i < |a| :: x[i] == a[i];
    assert forall i | 0 <= i < |b| :: x[i] == b[i];
    assert |a| == |b|;
    assert a == x[..|a|] && b == x[..|b|];
    assert s == x[|a| + 1..] && t == x[|b| + 1..];
  }

  lemma JoinShowsMore(parts: seq<string>, sep: char)
    ensures |parts| > 1 ==> sep in Join(parts, sep)
  {
    if |parts| > 1 { assert Join(parts, sep)[|parts[0]|] == sep; }
  }

  lemma {:induction false} JoinInjective(a: seq<string>, b: seq<string>, sep: char)
    requires a != [] && b != [] && Without(a, sep) && Without(b, sep) && Join(a, sep) == Join(b, sep)
    ensures a == b
  {
    assert a[0] in a && b[0] in b;
    JoinShowsMore(a, sep);
    JoinShowsMore(b, sep);
    if |a| > 1 && |b| > 1 {
      FirstPiece(a[0], b[0], sep, Join(a[1..], sep), Join(b[1..], sep));
      JoinInjective(a[1..], b[1..], sep);
      assert a == [a[0]] + a[1..] && b == [b[0]] + b[1..];
    }
  }

  lemma {:induction false} NumeralsInjective(a: seq<nat>, b: seq<nat>)
    requires Numerals(a) == Numerals(b)
    ensures a == b
  {
    if a != [] {
      ReadDecimal(a[0]);
      ReadDecimal(b[0]);
      assert Numerals(a)[0] == Decimal(a[0]) && Numerals(b)[0] == Decimal(b[0]);
      assert Numerals(a)[1..] == Numerals(a[1..]) && Numerals(b)[1..] == Numerals(b[1..]);
      NumeralsInjective(a[1..], b[1..]);
      assert a == [a[0]] + a[1..] && b == [b[0]] + b[1..];
    }
  }

  lemma {:induction false} NumeralsPlain(values: seq<nat>, sep: char)
    requires !IsDigit(sep)
    ensures Without(Numerals(values), sep) && forall p | p in Numerals(values) :: p != ""
  {
    if values != [] { NumeralsPlain(values[1..], sep); }
  }

  lemma {:induction false} JoinPlain(parts: seq<string>, sep: char, other: char)
    requires Without(parts, other) && sep != other
    ensures other !in Join(parts, sep)
  {
    if |parts| > 1 { JoinPlain(parts[1..], sep, other); }
  }

  lemma DashedInjective(a: seq<nat>, b: seq<nat>)
    requires Dashed(a) == Dashed(b)
    ensures a == b
  {
    NumeralsPlain(a, '-');
    NumeralsPlain(b, '-');
    if a != [] && b != [] {
      JoinInjective(Numerals(a), Numerals(b), '-');
      NumeralsInjective(a, b);
    } else {
      EmptyJoin(Numerals(a));
      EmptyJoin(Numerals(b));
    }
  }

  lemma EmptyJoin(parts: seq<string>)
    requires forall p | p in parts :: p != ""
    ensures Join(parts, '-') == "" <==> parts == []
  {
    if parts != [] { assert parts[0] in parts; }
  }

  lemma DashedPlain(values: seq<nat>)
    ensures ',' !in Dashed(values)
  {
    NumeralsPlain(values, ',');
    JoinPlain(Numerals(values), '-', ',');
  }

  /** ja3_raw determines the version and the four lists. */
  lemma Ja3Injective(f: Fingerprint, g: Fingerprint)
    requires Ja3Raw(f) == Ja3Raw(g)
    ensures f == g
  {
    PartsPlain(f);
    PartsPlain(g);
    hide Without;
    JoinInjective(Parts(f), Parts(g), ',');
    hide Join, Dashed;
    assert Parts(f)[0] == Parts(g)[0] && Parts(f)[1] == Parts(g)[1] && Parts(f)[2] == Parts(g)[2]
        && Parts(f)[3] == Parts(g)[3] && Parts(f)[4] == Parts(g)[4];
    ReadDecimal(f.version);
    ReadDecimal(g.version);
    DashedInjective(f.ciphers, g.ciphers);
    DashedInjective(f.extensions, g.extensions);
    DashedInjective(f.groups, g.groups);
    DashedInjective(f.points, g.points);
  }

  lemma PartsPlain(f: Fingerprint)
    ensures Without(Parts(f), ',')
  {
    DashedPlain(f.ciphers);
    DashedPlain(f.extensions);
    DashedPlain(f.groups);
    DashedPlain(f.points);
    assert AllDigits(Decimal(f.version));
    hide Dashed, Decimal;
  }
}
