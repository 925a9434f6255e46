/** Byte strings, big-endian numbers and the length-prefixed field encoding that
    feeds the CPACE generator and the transcript hash. */
module Bytes {
  import opened Basics

  type byte = x: int | 0 <= x < 0x100

  // ---------- numbers ----------

  function Pow256(k: nat): (p: nat)
    ensures p >= 1
  {
    if k == 0 then 1 else 0x100 * Pow256(k - 1)
  }

  /** The low `k` bytes of `n`, most significant first. For `k == 4` this is
      PutUint32 applied to a uint32 conversion: higher bytes are dropped. */
  function BigEndian(n: nat, k: nat): (b: seq<byte>)
    ensures |b| == k
    decreases k, n
  {
    if k == 0 then [] else BigEndian(n / 0x100, k - 1) + [n % 0x100]
  }

  function BigEndianValue(b: seq<byte>): nat
  {
    if b == [] then 0 else BigEndianValue(b[..|b| - 1]) * 0x100 + b[|b| - 1]
  }

  lemma {:induction false} BigEndianRoundTrip(n: nat, k: nat)
    requires n < Pow256(k)
    ensures BigEndianValue(BigEndian(n, k)) == n
  {
    if k > 0 {
      BigEndianRoundTrip(n / 0x100, k - 1);
      var b := BigEndian(n, k);
      assert b[..k - 1] == BigEndian(n / 0x100, k - 1);
    }
  }

  lemma {:induction false} BigEndianOfValue(b: seq<byte>)
    ensures BigEndianValue(b) < Pow256(|b|)
    ensures BigEndian(BigEndianValue(b), |b|) == b
  {
    if b != [] {
      BigEndianOfValue(b[..|b| - 1]);
    }
  }

  function Zeros(k: nat): (b: seq<byte>)
    ensures |b| == k
  {
    seq(k, i => 0)
  }

  /** Only the all-zero string has value zero. */
  lemma {:induction false} ZeroValue(b: seq<byte>)
    ensures BigEndianValue(b) == 0 <==> b == Zeros(|b|)
  {
    if b != [] {
      var n := |b| - 1;
      ZeroValue(b[..n]);
      assert b == b[..n] + [b[n]];
      assert Zeros(n + 1) == Zeros(n) + [0];
      assert Zeros(n + 1)[..n] == Zeros(n);
    }
  }

  // ---------- length-prefixed fields ----------

  const FieldLimit: nat := 0x1_0000_0000

  function LenPrefixed(b: seq<byte>): seq<byte>
  {
    BigEndian(|b|, 4) + b
  }

  function EncodeFields(fs: seq<seq<byte>>): seq<byte>
  {
    if fs == [] then [] else LenPrefixed(fs[0]) + EncodeFields(fs[1..])
  }

  ghost predicate Bounded(fs: seq<seq<byte>>)
  {
    forall i :: 0 <= i < |fs| ==> |fs[i]| < FieldLimit
  }

  /** Reads `count` fields off the front; the second component is what is left. */
  function SplitFields(bs: seq<byte>, count: nat): Option<(seq<seq<byte>>, seq<byte>)>
  {
    if count == 0 then Some(([], bs))
    else if |bs| < 4 then None
    else
      var len := BigEndianValue(bs[..4]);
      if |bs| - 4 < len then None
      else match SplitFields(bs[4 + len..], count - 1)
        case None => None
        case Some((fs, rest)) => Some(([bs[4..4 + len]] + fs, rest))
  }

  lemma LengthRoundTrip(n: nat)
    requires n < FieldLimit
    ensures BigEndianValue(BigEndian(n, 4)) == n
  {
    assert Pow256(4) == FieldLimit by {
      assert Pow256(1) == 0x100;
      assert Pow256(2) == 0x1_0000;
      assert Pow256(3) == 0x100_0000;
    }
    BigEndianRoundTrip(n, 4);
  }

  lemma SplitFirst(f: seq<byte>, tail: seq<byte>, bs: seq<byte>)
    requires |f| < FieldLimit
    requires bs == LenPrefixed(f) + tail
    ensures |bs| >= 4 + |f| && BigEndianValue(bs[..4]) == |f|
    ensures bs[4..4 + |f|] == f && bs[4 + |f|..] == tail
  {
    LengthRoundTrip(|f|);
    var h := BigEndian(|f|, 4);
    assert bs[..4] == h;
  }

  lemma SplitNext(f: seq<byte>, tail: seq<byte>, bs: seq<byte>, fs: seq<seq<byte>>, rest: seq<byte>)
    requires |f| < FieldLimit
    requires bs == LenPrefixed(f) + tail
    requires SplitFields(tail, |fs|) == Some((fs, rest))
    ensures SplitFields(bs, |fs| + 1) == Some(([f] + fs, rest))
  {
    SplitFirst(f, tail, bs);
  }

  lemma EncodeFront(fs: seq<seq<byte>>, rest: seq<byte>)
    requires fs != []
    ensures EncodeFields(fs) + rest == LenPrefixed(fs[0]) + (EncodeFields(fs[1..]) + rest)
  {
  }

  lemma {:induction false} SplitEncoded(fs: seq<seq<byte>>, rest: seq<byte>)
    requires Bounded(fs)
    ensures SplitFields(EncodeFields(fs) + rest, |fs|) == Some((fs, rest))
  {
    if fs == [] {
      assert EncodeFields(fs) + rest == rest;
    } else {
      SplitEncoded(fs[1..], rest);
      EncodeFront(fs, rest);
      SplitNext(fs[0], EncodeFields(fs[1..]) + rest, EncodeFields(fs) + rest, fs[1..], rest);
      assert fs == [fs[0]] + fs[1..];
    }
  }

  /** Equal encodings of equally many fields, each followed by anything, come
      from equal fields. */
  lemma EncodeFieldsPrefixFree(fs: seq<seq<byte>>, gs: seq<seq<byte>>, r: seq<byte>, s: seq<byte>)
    requires Bounded(fs) && Bounded(gs) && |fs| == |gs|
    requires EncodeFields(fs) + r == EncodeFields(gs) + s
    ensures fs == gs && r == s
  {
    SplitEncoded(fs, r);
    SplitEncoded(gs, s);
  }

  /** The encoding is injective even when the number of fields is not known. */
  lemma {:induction false} EncodeFieldsInjective(fs: seq<seq<byte>>, gs: seq<seq<byte>>)
    requires Bounded(fs) && Bounded(gs)
    requires EncodeFields(fs) == EncodeFields(gs)
    ensures fs == gs
  {
    if fs != [] && gs != [] {
      var r, s := EncodeFields(fs[1..]), EncodeFields(gs[1..]);
      var f, g: seq<seq<byte>> := [fs[0]], [gs[0]];
      assert EncodeFields(f) == LenPrefixed(fs[0]);
      assert EncodeFields(g) == LenPrefixed(gs[0]);
      EncodeFieldsPrefixFree(f, g, r, s);
      assert f[0] == g[0];
      EncodeFieldsInjective(fs[1..], gs[1..]);
      assert fs == [fs[0]] + fs[1..] && gs == [gs[0]] + gs[1..];
    }
  }

  lemma {:induction false} EncodeFieldsSnoc(fs: seq<seq<byte>>, f: seq<byte>)
    ensures EncodeFields(fs + [f]) == EncodeFields(fs) + LenPrefixed(f)
  {
    if fs == [] {
      assert EncodeFields([f]) == LenPrefixed(f) + [];
    } else {
      EncodeFieldsSnoc(fs[1..], f);
      assert (fs + [f])[1..] == fs[1..] + [f];
    }
  }

  /** The bound is needed: at 2^32 bytes the length wraps to zero, and two
      different pairs of fields encode alike. */
  lemma LengthWrapCollides()
    ensures exists x: seq<byte> ::
              |x| == FieldLimit && [x, []] != [[], x]
              && EncodeFields([x, []]) == EncodeFields([[], x])
  {
    var x := Zeros(FieldLimit);
    EncodeTwo(x, []);
    EncodeTwo([], x);
    WrappedLength();
    assert LenPrefixed(x) + LenPrefixed([]) == Zeros(FieldLimit + 8);
    assert LenPrefixed([]) + LenPrefixed(x) == Zeros(FieldLimit + 8);
    assert [x, []][0] != [[], x][0];
  }

  /** The encoding is injective on fields shorter than `limit` bytes exactly if the
      limit is at most 2^32. */
  lemma InjectiveExactly(limit: nat)
    ensures (forall fs, gs ::
               Shorter(fs, limit) && Shorter(gs, limit) && EncodeFields(fs) == EncodeFields(gs) ==> fs == gs)
            <==> limit <= FieldLimit
  {
    if limit <= FieldLimit {
      forall fs, gs | Shorter(fs, limit) && Shorter(gs, limit) && EncodeFields(fs) == EncodeFields(gs)
        ensures fs == gs
      {
        EncodeFieldsInjective(fs, gs);
      }
    } else {
      LengthWrapCollides();
      var x: seq<byte> :| |x| == FieldLimit && [x, []] != [[], x] && EncodeFields([x, []]) == EncodeFields([[], x]);
      assert Shorter([x, []], limit) && Shorter([[], x], limit);
    }
  }

  ghost predicate Shorter(fs: seq<seq<byte>>, limit: nat)
  {
    forall i :: 0 <= i < |fs| ==> |fs[i]| < limit
  }

  lemma EncodeTwo(f: seq<byte>, g: seq<byte>)
    ensures EncodeFields([f, g]) == LenPrefixed(f) + LenPrefixed(g)
  {
    assert [f, g][1..] == [g];
    assert EncodeFields([g]) == LenPrefixed(g) + [];
  }

  lemma WrappedLength()
    ensures LenPrefixed(Zeros(FieldLimit)) == Zeros(FieldLimit + 4)
    ensures LenPrefixed([]) == Zeros(4)
  {
    WrappedHeader();
    var h := BigEndian(FieldLimit, 4);
    assert h == Zeros(4);
  }

  lemma WrappedHeader()
    ensures BigEndian(FieldLimit, 4) == Zeros(4) == BigEndian(0, 4)
  {
    assert BigEndian(0, 1) == [0];
    assert BigEndian(0, 2) == [0, 0];
    assert BigEndian(0, 3) == [0, 0, 0];
    assert BigEndian(0x100, 1) == [0];
    assert BigEndian(0x1_0000, 2) == [0, 0];
    assert BigEndian(0x100_0000, 3) == [0, 0, 0];
  }

  // ---------- writers ----------

  /** An io.Writer that keeps what was written: a buffer, or a hash's input. */
  class ByteWriter {
    var out: seq<byte>

    constructor ()
      ensures out == []
    {
      out := [];
    }

    method Write(b: seq<byte>)
      modifies this
      ensures out == old(out) + b
    {
      out := out + b;
    }
  }

  lemma FourBytes(v: nat)
    ensures BigEndian(v, 4) == [v / 0x100_0000 % 0x100, v / 0x1_0000 % 0x100, v / 0x100 % 0x100, v % 0x100]
  {
    var v1, v2, v3 := v / 0x100, v / 0x1_0000, v / 0x100_0000;
    assert v1 / 0x100 == v2 && v2 / 0x100 == v3;
    assert BigEndian(v3, 1) == [v3 % 0x100];
    assert BigEndian(v2, 2) == [v3 % 0x100, v2 % 0x100];
    assert BigEndian(v1, 3) == [v3 % 0x100, v2 % 0x100, v1 % 0x100];
  }

  method PutUint32(a: array<byte>, v: nat)
    requires a.Length == 4
    modifies a
    ensures a[..] == BigEndian(v, 4)
  {
    a[0] := v / 0x100_0000 % 0x100;
    a[1] := v / 0x1_0000 % 0x100;
    a[2] := v / 0x100 % 0x100;
    a[3] := v % 0x100;
    FourBytes(v);
  }

  /** `fields` are the fields written so far. */
  method WriteLenPrefixed(w: ByteWriter, b: seq<byte>, ghost fields: seq<seq<byte>>)
    returns (ghost extended: seq<seq<byte>>)
    requires w.out == EncodeFields(fields)
    modifies w
    ensures w.out == old(w.out) + LenPrefixed(b)
    ensures extended == fields + [b] && w.out == EncodeFields(extended)
  {
    var lenBytes := new byte[4];
    PutUint32(lenBytes, |b|);
    w.Write(lenBytes[..]);
    w.Write(b);
    EncodeFieldsSnoc(fields, b);
    extended := fields + [b];
  }

  // ---------- text ----------

  /** Text that reaches a length-prefixed field. */
  type text = b: seq<byte> | |b| < FieldLimit

  /** The bytes of an ASCII literal. */
  function Ascii(s: string): (b: seq<byte>)
    ensures |b| == |s|
  {
    seq(|s|, i requires 0 <= i < |s| => s[i] as int % 0x100)
  }

  predicate IsSpace(c: byte)
  {
    c == 0x20 || 0x09 <= c <= 0x0D
  }

  function TrimLeft(s: seq<byte>): (r: seq<byte>)
    ensures |r| <= |s|
    ensures r != [] ==> !IsSpace(r[0])
  {
    if s != [] && IsSpace(s[0]) then TrimLeft(s[1..]) else s
  }

  function TrimRight(s: seq<byte>): (r: seq<byte>)
    ensures r <= s
    ensures r != [] ==> !IsSpace(r[|r| - 1])
  {
    if s != [] && IsSpace(s[|s| - 1]) then TrimRight(s[..|s| - 1]) else s
  }

  /** strings.TrimSpace, for ASCII white space. */
  function TrimSpace(s: seq<byte>): (r: seq<byte>)
    ensures |r| <= |s|
    ensures r != [] ==> !IsSpace(r[0]) && !IsSpace(r[|r| - 1])
  {
    TrimRight(TrimLeft(s))
  }

  /** Tab, line feed, vertical tab, form feed, carriage return, space. */
  predicate White(c: byte)
  {
    c in {0x09, 0x0A, 0x0B, 0x0C, 0x0D, 0x20}
  }

  ghost predicate Blank(s: seq<byte>)
  {
    forall i :: 0 <= i < |s| ==> White(s[i])
  }

  /** `r` is what is left of `s` between white space at the two ends. */
  ghost predicate Core(s: seq<byte>, a: seq<byte>, r: seq<byte>, b: seq<byte>)
  {
    && Blank(a) && Blank(b) && s == a + r + b
    && (r != [] ==> !White(r[0]) && !White(r[|r| - 1]))
  }

  lemma {:induction false} LeftTrimmed(s: seq<byte>) returns (a: seq<byte>)
    ensures Blank(a) && s == a + TrimLeft(s)
  {
    if s != [] && IsSpace(s[0]) {
      var rest := LeftTrimmed(s[1..]);
      a := [s[0]] + rest;
    } else {
      a := [];
    }
  }

  lemma {:induction false} RightTrimmed(s: seq<byte>) returns (b: seq<byte>)
    ensures Blank(b) && s == TrimRight(s) + b
  {
    if s != [] && IsSpace(s[|s| - 1]) {
      var rest := RightTrimmed(s[..|s| - 1]);
      b := rest + [s[|s| - 1]];
    } else {
      b := [];
    }
  }

  /** Trimming removes blanks at the two ends and nothing else. */
  lemma TrimSpaceExact(s: seq<byte>) returns (a: seq<byte>, b: seq<byte>)
    ensures Core(s, a, TrimSpace(s), b)
  {
    a := LeftTrimmed(s);
    b := RightTrimmed(TrimLeft(s));
    assert a + (TrimSpace(s) + b) == a + TrimSpace(s) + b;
  }

  /** And nothing else does that: the core is unique. */
  lemma TrimSpaceUnique(s: seq<byte>, a: seq<byte>, r: seq<byte>, b: seq<byte>)
    requires Core(s, a, r, b)
    ensures r == TrimSpace(s)
  {
    if r == [] {
      BlankTrims(s);
    } else {
      TrimLeftPast(a, r + b);
      assert s == a + (r + b);
      TrimRightPast(r, b);
    }
  }

  lemma BlankTrims(s: seq<byte>)
    ensures Blank(s) <==> TrimSpace(s) == []
  {
    var a, b := TrimSpaceExact(s);
    var r := TrimSpace(s);
    assert r != [] ==> s[|a|] == r[0];
  }

  lemma {:induction false} TrimLeftPast(a: seq<byte>, r: seq<byte>)
    requires Blank(a) && r != [] && !White(r[0])
    ensures TrimLeft(a + r) == r
  {
    if a == [] {
      assert a + r == r;
    } else {
      assert IsSpace(a[0]);
      assert (a + r)[1..] == a[1..] + r;
      TrimLeftPast(a[1..], r);
    }
  }

  lemma {:induction false} TrimRightPast(r: seq<byte>, b: seq<byte>)
    requires Blank(b) && r != [] && !White(r[|r| - 1])
    ensures TrimRight(r + b) == r
  {
    if b == [] {
      assert r + b == r;
    } else {
      var n := |b| - 1;
      assert IsSpace(b[n]);
      assert (r + b)[..|r| + n] == r + b[..n];
      TrimRightPast(r, b[..n]);
    }
  }

  function Upper(c: byte): byte
  {
    if 0x61 <= c <= 0x7A then c - 0x20 else c
  }

  /** strings.ToUpper, for ASCII letters. */
  function ToUpper(s: seq<byte>): (r: seq<byte>)
    ensures |r| == |s|
    ensures forall i :: 0 <= i < |s| ==> SameLetter(s[i], r[i]) && !(0x61 <= r[i] <= 0x7A)
  {
    seq(|s|, i requires 0 <= i < |s| => Upper(s[i]))
  }

  /** The same byte, or the two cases of one ASCII letter. */
  predicate SameLetter(c: byte, d: byte)
  {
    || c == d
    || (0x41 <= c <= 0x5A && d as int == c as int + 0x20)
    || (0x41 <= d <= 0x5A && c as int == d as int + 0x20)
  }

  ghost predicate SameLetters(s: seq<byte>, t: seq<byte>)
  {
    |s| == |t| && forall i :: 0 <= i < |s| ==> SameLetter(s[i], t[i])
  }

  /** Upper-casing forgets the case of ASCII letters and nothing else. */
  lemma ToUpperForgetsCase(s: seq<byte>, t: seq<byte>)
    ensures ToUpper(s) == ToUpper(t) <==> SameLetters(s, t)
  {
    if |s| == |t| {
      assert forall i :: 0 <= i < |s| ==> (ToUpper(s)[i] == ToUpper(t)[i] <==> SameLetter(s[i], t[i]));
    }
  }
}
