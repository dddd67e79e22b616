// The part of CBOR (RFC 8949) that the hybrid containers use: integers, byte strings, text,
// arrays and maps whose entries keep the order they were given in.

module Utf8 {
  import opened Prelude

  predicate Continuation(b: byte) { 0x80 <= b <= 0xbf }

  /** Length of the well-formed scalar at the front of `s` (Unicode, table 3-7), or 0. */
  function ScalarWidth(s: seq<byte>): (n: nat)
    ensures n <= |s| && n <= 4
    ensures s != [] && s[0] < 0x80 ==> n == 1
  {
    if s == [] then 0
    else if s[0] < 0x80 then 1
    else if 0xc2 <= s[0] <= 0xdf then
      if |s| >= 2 && Continuation(s[1]) then 2 else 0
    else if 0xe0 <= s[0] <= 0xef then
      if |s| >= 3 && Continuation(s[1]) && Continuation(s[2])
         && (s[0] == 0xe0 ==> 0xa0 <= s[1]) && (s[0] == 0xed ==> s[1] <= 0x9f) then 3 else 0
    else if 0xf0 <= s[0] <= 0xf4 then
      if |s| >= 4 && Continuation(s[1]) && Continuation(s[2]) && Continuation(s[3])
         && (s[0] == 0xf0 ==> 0x90 <= s[1]) && (s[0] == 0xf4 ==> s[1] <= 0x8f) then 4 else 0
    else 0
  }

  /** The last `n` bytes of `s` are well-formed scalars. */
  predicate ValidTail(s: seq<byte>, n: nat)
    requires n <= |s|
    decreases n
  {
    n == 0 ||
    var w := ScalarWidth(s[|s| - n..]);
    0 < w <= n && ValidTail(s, n - w)
  }

  /** All of `s` is. The one-point quantifier keeps proofs from unfolding every text they mention. */
  predicate Valid(s: seq<byte>) {
    forall n | n == |s| :: ValidTail(s, n)
  }

  lemma {:induction false} AsciiIsValidTail(s: seq<byte>, n: nat)
    requires n <= |s| && forall k :: 0 <= k < |s| ==> s[k] < 0x80
    ensures ValidTail(s, n)
    decreases n
  {
    if n > 0 {
      AsciiIsValidTail(s, n - 1);
    }
  }

  lemma AsciiIsValid(s: seq<byte>)
    requires forall k :: 0 <= k < |s| ==> s[k] < 0x80
    ensures Valid(s)
  {
    AsciiIsValidTail(s, |s|);
  }

  // ---- Well-formed bytes are texts ----

  function EncodeChar(c: char): (b: seq<byte>)
    ensures |b| == CharBytes(c)
  {
    var v := c as int;
    if v < 0x80 then [v as byte]
    else if v < 0x800 then [(0xc0 + v / 64) as byte, (0x80 + v % 64) as byte]
    else if v < 0x1_0000 then [(0xe0 + v / 4096) as byte, (0x80 + v / 64 % 64) as byte, (0x80 + v % 64) as byte]
    else [(0xf0 + v / 262144) as byte, (0x80 + v / 4096 % 64) as byte, (0x80 + v / 64 % 64) as byte,
          (0x80 + v % 64) as byte]
  }

  function EncodeText(s: string): (b: seq<byte>)
    ensures |b| == ByteLength(s)
  {
    if s == "" then [] else EncodeText(s[..|s| - 1]) + EncodeChar(s[|s| - 1])
  }

  /** The bytes are the ones that the well-formedness of a scalar of that width asks for. */
  predicate Formed(b: seq<byte>) {
    || (|b| == 1 && b[0] < 0x80)
    || (|b| == 2 && 0xc2 <= b[0] <= 0xdf && Continuation(b[1]))
    || (|b| == 3 && 0xe0 <= b[0] <= 0xef && Continuation(b[1]) && Continuation(b[2])
        && (b[0] == 0xe0 ==> 0xa0 <= b[1]) && (b[0] == 0xed ==> b[1] <= 0x9f))
    || (|b| == 4 && 0xf0 <= b[0] <= 0xf4 && Continuation(b[1]) && Continuation(b[2]) && Continuation(b[3])
        && (b[0] == 0xf0 ==> 0x90 <= b[1]) && (b[0] == 0xf4 ==> b[1] <= 0x8f))
  }

  lemma EncodedIsFormed(c: char)
    ensures Formed(EncodeChar(c))
  {
    var v := c as int;
    if 0x800 <= v < 0x1_0000 {
      var high, rest := v / 4096, v / 64;
      assert rest / 64 == high && rest % 64 == rest - 64 * high;
    } else if 0x1_0000 <= v {
      var high, rest := v / 262144, v / 4096;
      assert rest / 64 == high && rest % 64 == rest - 64 * high && rest <= 0x10f;
    }
  }

  lemma FormedIsScalar(b: seq<byte>, rest: seq<byte>)
    requires Formed(b)
    ensures ScalarWidth(b + rest) == |b|
  {
    hide Continuation;
    var s := b + rest;
    assert forall k | 0 <= k < |b| :: s[k] == b[k];
  }

  lemma CharIsScalar(c: char, rest: seq<byte>)
    ensures ScalarWidth(EncodeChar(c) + rest) == |EncodeChar(c)|
  {
    hide EncodeChar, ScalarWidth, Formed;
    EncodedIsFormed(c);
    FormedIsScalar(EncodeChar(c), rest);
  }

  /** Six-bit digits are read back. */
  lemma Digits(high: int, low: int)
    requires 0 <= low < 64
    ensures (high * 64 + low) / 64 == high && (high * 64 + low) % 64 == low
  {
  }

  lemma TwoBytesAreChar(a: byte, b: byte) returns (c: char)
    requires 0xc2 <= a <= 0xdf && Continuation(b)
    ensures EncodeChar(c) == [a, b]
  {
    var high, low := a as int - 0xc0, b as int - 0x80;
    Digits(high, low);
    c := (high * 64 + low) as char;
  }

  lemma ThreeBytesAreChar(a: byte, b: byte, d: byte) returns (c: char)
    requires 0xe0 <= a <= 0xef && Continuation(b) && Continuation(d)
    requires (a == 0xe0 ==> 0xa0 <= b) && (a == 0xed ==> b <= 0x9f)
    ensures EncodeChar(c) == [a, b, d]
  {
    var high, mid, low := a as int - 0xe0, b as int - 0x80, d as int - 0x80;
    Digits(high, mid);
    Digits(high * 64 + mid, low);
    var v := (high * 64 + mid) * 64 + low;
    assert 0x800 <= v < 0x1_0000 && !(0xd800 <= v < 0xe000);
    assert v / 4096 == high;
    c := v as char;
  }

  lemma FourBytesAreChar(a: byte, b: byte, d: byte, e: byte) returns (c: char)
    requires 0xf0 <= a <= 0xf4 && Continuation(b) && Continuation(d) && Continuation(e)
    requires (a == 0xf0 ==> 0x90 <= b) && (a == 0xf4 ==> b <= 0x8f)
    ensures EncodeChar(c) == [a, b, d, e]
  {
    var high, mid, next, low := a as int - 0xf0, b as int - 0x80, d as int - 0x80, e as int - 0x80;
    Digits(high, mid);
    Digits(high * 64 + mid, next);
    Digits((high * 64 + mid) * 64 + next, low);
    var v := ((high * 64 + mid) * 64 + next) * 64 + low;
    assert 0x1_0000 <= v < 0x11_0000;
    assert v / 4096 == high * 64 + mid && v / 262144 == high;
    c := v as char;
  }

  lemma ScalarIsChar(s: seq<byte>) returns (c: char)
    requires ScalarWidth(s) > 0
    ensures s[..ScalarWidth(s)] == EncodeChar(c)
  {
    hide EncodeChar;
    var n := ScalarWidth(s);
    if n == 1 {
      c := s[0] as int as char;
      OneByte(c);
    } else if n == 2 {
      c := TwoBytesAreChar(s[0], s[1]);
    } else if n == 3 {
      c := ThreeBytesAreChar(s[0], s[1], s[2]);
    } else {
      c := FourBytesAreChar(s[0], s[1], s[2], s[3]);
    }
  }

  lemma OneByte(c: char)
    requires c as int < 0x80
    ensures EncodeChar(c) == [c as int as byte]
  {
  }

  lemma EncodeLast(s: string, c: char)
    ensures EncodeText(s + [c]) == EncodeText(s) + EncodeChar(c) && EncodeText("") == []
  {
    hide EncodeChar;
    assert (s + [c])[..|s|] == s;
  }

  lemma {:induction false} EncodeFirst(c: char, s: string)
    ensures EncodeText([c] + s) == EncodeChar(c) + EncodeText(s)
  {
    hide EncodeChar, EncodeText;
    if s == "" {
      EncodeLast("", c);
      assert [c] + s == "" + [c];
    } else {
      var front, last := s[..|s| - 1], s[|s| - 1];
      EncodeFirst(c, front);
      EncodeLast([c] + front, last);
      EncodeLast(front, last);
      assert [c] + s == [c] + front + [last] && s == front + [last];
    }
  }

  lemma {:induction false} TextIsValidTail(front: seq<byte>, s: string)
    ensures ValidTail(front + EncodeText(s), |EncodeText(s)|)
    decreases |s|
  {
    hide EncodeChar, EncodeText, ScalarWidth;
    if s != "" {
      var c, rest := s[0], s[1..];
      assert s == [c] + rest;
      EncodeFirst(c, rest);
      CharIsScalar(c, EncodeText(rest));
      TextIsValidTail(front + EncodeChar(c), rest);
      var b := front + EncodeText(s);
      assert b[|b| - |EncodeText(s)|..] == EncodeText(s);
      assert b == front + EncodeChar(c) + EncodeText(rest);
    }
  }

  lemma {:induction false} TailIsText(b: seq<byte>, n: nat) returns (s: string)
    requires n <= |b| && ValidTail(b, n)
    ensures EncodeText(s) == b[|b| - n..]
    decreases n
  {
    hide EncodeChar, EncodeText, ScalarWidth;
    if n == 0 {
      s := "";
      EncodeLast("", 'a');
    } else {
      var tail := b[|b| - n..];
      var w := ScalarWidth(tail);
      var c := ScalarIsChar(tail);
      var rest := TailIsText(b, n - w);
      EncodeFirst(c, rest);
      s := [c] + rest;
      TailSplits(b, n, w);
    }
  }

  lemma TailSplits(b: seq<byte>, n: nat, w: nat)
    requires w <= n <= |b|
    ensures b[|b| - n..] == b[|b| - n..][..w] + b[|b| - (n - w)..]
  {
  }

  /** Bytes are valid exactly if they encode a text, which has as many bytes as its length says. */
  lemma ValidExactly(b: seq<byte>)
    ensures Valid(b) <==> exists s :: EncodeText(s) == b && ByteLength(s) == |b|
  {
    if Valid(b) {
      assert ValidTail(b, |b|);
      var s := TailIsText(b, |b|);
    }
    forall s | EncodeText(s) == b
      ensures ValidTail(b, |b|)
    {
      TextIsValidTail([], s);
      assert [] + EncodeText(s) == b;
    }
  }
}

module Cbor {
  import opened Prelude
  import Utf8

  /** A Rust `String`, as its bytes. */
  type Text = s: Vec<byte> | Utf8.Valid(s) witness []

  datatype Value =
    | UInt(n: u64)
    | NInt(m: u64)  // the integer -1 - m
    | Bytes(data: Vec<byte>)
    | Str(text: Text)
    | Array(items: Vec<Value>)
    | Map(entries: Vec<Entry>)

  datatype Entry = Entry(key: Value, value: Value)

  // ---- Writing ----

  /** How many argument bytes follow an initial byte whose low five bits are 24, 25, 26 or 27. */
  function InfoWidth(info: nat): (w: nat)
    requires 24 <= info < 28
    ensures w in {1, 2, 4, 8}
  {
    match info case 24 => 1 case 25 => 2 case 26 => 4 case _ => 8
  }

  /** The low five bits of the shortest head for `n`. */
  function ShortestInfo(n: u64): (info: nat)
    ensures info < 28 && (n < 24 ==> info == n) && (n >= 24 ==> info >= 24)
    ensures n >= 24 ==> n < Pow256(InfoWidth(info))
  {
    Pow256Widths();
    if n < 24 then n else if n < 0x100 then 24 else if n < 0x1_0000 then 25 else if n < U32_LIMIT then 26 else 27
  }

  /** The shortest head for a major type and argument, section 4.2.1 of RFC 8949. */
  function Head(major: nat, n: u64): (h: seq<byte>)
    requires major < 6
    ensures 1 <= |h| <= 9
  {
    var info := ShortestInfo(n);
    [(32 * major + info) as byte] + if info < 24 then [] else BigEndian(n, InfoWidth(info))
  }

  function Enc(v: Value): seq<byte>
    decreases v, 0
  {
    match v
    case UInt(n) => Head(0, n)
    case NInt(n) => Head(1, n)
    case Bytes(b) => Head(2, |b|) + b
    case Str(t) => Head(3, |t|) + t
    case Array(items) => Head(4, |items|) + EncItems(items)
    case Map(entries) => Head(5, |entries|) + EncEntries(entries)
  }

  function EncItems(items: seq<Value>): seq<byte>
    decreases items, 1
  {
    if items == [] then [] else Enc(items[0]) + EncItems(items[1..])
  }

  function EncEntries(entries: seq<Entry>): seq<byte>
    decreases entries, 1
  {
    if entries == [] then [] else EncEntry(entries[0]) + EncEntries(entries[1..])
  }

  function EncEntry(e: Entry): seq<byte>
    decreases e, 1
  {
    Enc(e.key) + Enc(e.value)
  }

  // ---- Reading ----

  datatype HeadRead = HeadRead(major: nat, arg: u64, size: nat)

  /** Reads a definite-length head. Longer heads than necessary are read, as section 3 of RFC 8949 allows. */
  function ReadHead(b: seq<byte>): (r: Option<HeadRead>)
    ensures r.Some? ==> 1 <= r.value.size <= |b|
  {
    if b == [] then None
    else
      var major, info := b[0] as nat / 32, b[0] as nat % 32;
      if info < 24 then Some(HeadRead(major, info, 1))
      else if info < 28 then
        var width := InfoWidth(info);
        if |b| < 1 + width then None
        else
          Pow256Widths();
          Some(HeadRead(major, BigEndianValue(b[1..1 + width]), 1 + width))
      else None
  }

  lemma WidestNeeded(n: u64, info: nat)
    requires 24 <= info < 28 && n < Pow256(InfoWidth(info))
    ensures ShortestInfo(n) <= info
  {
    Pow256Widths();
  }

  lemma HeadSize(major: nat, n: u64)
    requires major < 6
    ensures
      var info := ShortestInfo(n);
      && |Head(major, n)| == (if info < 24 then 1 else 1 + InfoWidth(info))
      && Head(major, n) == [(32 * major + info) as byte] + if info < 24 then [] else BigEndian(n, InfoWidth(info))
  {
    hide ShortestInfo;
  }

  /** No bytes that read as the head of an argument are shorter than its head, and no others are as short. */
  lemma HeadIsShortest(b: seq<byte>)
    requires ReadHead(b).Some? && ReadHead(b).value.major < 6
    ensures
      var r := ReadHead(b).value;
      |Head(r.major, r.arg)| <= r.size && (|Head(r.major, r.arg)| == r.size ==> b[..r.size] == Head(r.major, r.arg))
  {
    hide ShortestInfo, Head, Pow256, BigEndian, BigEndianValue;
    var r, info := ReadHead(b).value, b[0] as nat % 32;
    HeadSize(r.major, r.arg);
    if info < 24 {
      assert b[..1] == [b[0]];
    } else {
      var width := InfoWidth(info);
      WidestNeeded(r.arg, info);
      BigEndianWritesBack(b[1..1 + width]);
      assert b[..r.size] == [b[0]] + b[1..r.size];
    }
  }

  datatype Read<+T> = Read(value: T, rest: seq<byte>)

  /** Reads one value and says what follows it. */
  function Parse(b: seq<byte>): (r: Option<Read<Value>>)
    ensures r.Some? ==> |r.value.rest| < |b|
    decreases |b|, 0
  {
    var h :- ReadHead(b);
    var rest := b[h.size..];
    match h.major
    case 0 => Some(Read(UInt(h.arg), rest))
    case 1 => Some(Read(NInt(h.arg), rest))
    case 2 =>
      if |rest| < h.arg then None else Some(Read(Bytes(rest[..h.arg]), rest[h.arg..]))
    case 3 =>
      if |rest| < h.arg || !Utf8.Valid(rest[..h.arg]) then None
      else Some(Read(Str(rest[..h.arg]), rest[h.arg..]))
    case 4 =>
      var r :- ParseItems(rest, h.arg);
      Some(Read(Array(r.value), r.rest))
    case 5 =>
      var r :- ParseEntries(rest, h.arg);
      Some(Read(Map(r.value), r.rest))
    case _ => None
  }

  function ParseItems(b: seq<byte>, count: nat): (r: Option<Read<seq<Value>>>)
    ensures r.Some? ==> |r.value.rest| <= |b| && |r.value.value| == count
    decreases |b|, 1
  {
    if count == 0 then Some(Read([], b))
    else
      var first :- Parse(b);
      var others :- ParseItems(first.rest, count - 1);
      Some(Read([first.value] + others.value, others.rest))
  }

  function ParseEntries(b: seq<byte>, count: nat): (r: Option<Read<seq<Entry>>>)
    ensures r.Some? ==> |r.value.rest| <= |b| && |r.value.value| == count
    decreases |b|, 2
  {
    if count == 0 then Some(Read([], b))
    else
      var first :- ParseEntry(b);
      var others :- ParseEntries(first.rest, count - 1);
      Some(Read([first.value] + others.value, others.rest))
  }

  function ParseEntry(b: seq<byte>): (r: Option<Read<Entry>>)
    ensures r.Some? ==> |r.value.rest| < |b|
    decreases |b|, 1
  {
    var key :- Parse(b);
    var value :- Parse(key.rest);
    Some(Read(Entry(key.value, value.value), value.rest))
  }

  // ---- Reading undoes writing ----

  lemma HeadReadsBack(major: nat, n: u64, rest: seq<byte>)
    requires major < 6
    ensures ReadHead(Head(major, n) + rest) == Some(HeadRead(major, n, |Head(major, n)|))
  {
    var b := Head(major, n) + rest;
    var info := ShortestInfo(n);
    assert b[0] as nat / 32 == major && b[0] as nat % 32 == info;
    if info >= 24 {
      var width := InfoWidth(info);
      assert b[1..1 + width] == BigEndian(n, width);
      BigEndianReadsBack(n, width);
    }
  }

  lemma StringReadsBack(major: nat, data: Vec<byte>, rest: seq<byte>)
    requires major < 6
    ensures
      var b := Head(major, |data|) + data + rest;
      var h := ReadHead(b);
      && h == Some(HeadRead(major, |data|, |Head(major, |data|)|))
      && b[h.value.size..] == data + rest
      && (data + rest)[..|data|] == data && (data + rest)[|data|..] == rest
  {
    HeadReadsBack(major, |data|, data + rest);
    ConcatAssociates(Head(major, |data|), data, rest);
  }

  lemma ContainerHeadReadsBack(major: nat, n: u64, body: seq<byte>, rest: seq<byte>)
    requires major < 6
    ensures
      var b := Head(major, n) + body + rest;
      var h := ReadHead(b);
      h == Some(HeadRead(major, n, |Head(major, n)|)) && b[h.value.size..] == body + rest
  {
    HeadReadsBack(major, n, body + rest);
    ConcatAssociates(Head(major, n), body, rest);
  }

  lemma LeafReadsBack(v: Value, rest: seq<byte>)
    requires !v.Array? && !v.Map?
    ensures Parse(Enc(v) + rest) == Some(Read(v, rest))
  {
    match v
    case UInt(n) => HeadReadsBack(0, n, rest);
    case NInt(n) => HeadReadsBack(1, n, rest);
    case Bytes(b) => StringReadsBack(2, b, rest);
    case Str(t) => StringReadsBack(3, t, rest);
  }

  /** An encoding is self-delimiting: whatever follows it is left untouched. */
  lemma {:induction false} ParseInvertsEnc(v: Value, rest: seq<byte>)
    ensures Parse(Enc(v) + rest) == Some(Read(v, rest))
    decreases v, 0
  {
    if v.Array? {
      ContainerHeadReadsBack(4, |v.items|, EncItems(v.items), rest);
      ParseInvertsEncItems(v.items, rest);
    } else if v.Map? {
      ContainerHeadReadsBack(5, |v.entries|, EncEntries(v.entries), rest);
      ParseInvertsEncEntries(v.entries, rest);
    } else {
      LeafReadsBack(v, rest);
    }
  }

  lemma {:induction false} ParseInvertsEncItems(items: seq<Value>, rest: seq<byte>)
    ensures ParseItems(EncItems(items) + rest, |items|) == Some(Read(items, rest))
    decreases items, 1
  {
    if items == [] {
      assert EncItems(items) + rest == rest;
    } else {
      var after := EncItems(items[1..]) + rest;
      ConcatAssociates(Enc(items[0]), EncItems(items[1..]), rest);
      ParseInvertsEnc(items[0], after);
      ParseInvertsEncItems(items[1..], rest);
      assert items == [items[0]] + items[1..];
    }
  }

  lemma {:induction false} ParseInvertsEncEntries(entries: seq<Entry>, rest: seq<byte>)
    ensures ParseEntries(EncEntries(entries) + rest, |entries|) == Some(Read(entries, rest))
    decreases entries, 1
  {
    if entries == [] {
      assert EncEntries(entries) + rest == rest;
    } else {
      var after := EncEntries(entries[1..]) + rest;
      ConcatAssociates(EncEntry(entries[0]), EncEntries(entries[1..]), rest);
      ParseInvertsEncEntry(entries[0], after);
      ParseInvertsEncEntries(entries[1..], rest);
      assert entries == [entries[0]] + entries[1..];
    }
  }

  lemma {:induction false} ParseInvertsEncEntry(e: Entry, rest: seq<byte>)
    ensures ParseEntry(EncEntry(e) + rest) == Some(Read(e, rest))
    decreases e, 1
  {
    ConcatAssociates(Enc(e.key), Enc(e.value), rest);
    ParseInvertsEnc(e.key, Enc(e.value) + rest);
    ParseInvertsEnc(e.value, rest);
  }

  /** No encoding is a proper prefix of another, and different values have different encodings. */
  lemma EncIsPrefixFree(v: Value, x: seq<byte>, w: Value, y: seq<byte>)
    requires Enc(v) + x == Enc(w) + y
    ensures v == w && x == y
  {
    ParseInvertsEnc(v, x);
    ParseInvertsEnc(w, y);
  }

  // ---- The strict reader ----

  datatype StrictError = NotCbor | NotCanonical

  /** Parse, require the cursor at the end, write again and compare. */
  function ReadStrict(b: seq<byte>): Result<Value, StrictError> {
    match Parse(b)
    case None => Err(NotCbor)
    case Some(r) =>
      if r.rest != [] then Err(NotCanonical)
      else if Enc(r.value) != b then Err(NotCanonical)
      else Ok(r.value)
  }

  /** The strict reader accepts exactly the encodings, each one for a single value. */
  lemma ReadStrictExact(b: seq<byte>, v: Value)
    ensures ReadStrict(b) == Ok(v) <==> b == Enc(v)
  {
    ParseInvertsEnc(v, []);
    assert Enc(v) + [] == Enc(v);
  }

  /** Everything else is refused, and only a longer spelling of a value is refused for not being canonical. */
  lemma ReadStrictRefusals(b: seq<byte>)
    ensures ReadStrict(b).Err? <==> forall v :: b != Enc(v)
    ensures ReadStrict(b) == Err(NotCbor) <==> Parse(b).None?
  {
    if ReadStrict(b).Ok? {
      ReadStrictExact(b, ReadStrict(b).value);
    }
    forall v | b == Enc(v) ensures ReadStrict(b).Ok? {
      ReadStrictExact(b, v);
    }
  }
}
