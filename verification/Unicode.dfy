/** Text as Unicode scalar values, with the three coordinate systems the editor and the gateway use
    for a place in a text: UTF-16 code units, UTF-8 bytes, and (line, character) pairs.
    Every coordinate is given as a function of the scalar index `k` of the place. */
module Unicode {

  /** A Unicode scalar value: a code point that is not a surrogate. */
  type Scalar = c: int | 0 <= c < 0xD800 || 0xE000 <= c <= 0x10FFFF witness 0

  type Text = seq<Scalar>

  type Byte = b: int | 0 <= b < 256

  const NEWLINE: Scalar := 10

  /** Code units of one scalar in UTF-16 (section 2.1 of RFC 2781). */
  function Width16(c: Scalar): nat {
    if c < 0x10000 then 1 else 2
  }

  /** Bytes of one scalar in UTF-8 (section 3 of RFC 3629). */
  function Encode8(c: Scalar): seq<Byte> {
    if c < 0x80 then [c]
    else if c < 0x800 then [0xC0 + c / 64, 0x80 + c % 64]
    else if c < 0x10000 then [0xE0 + c / 4096, 0x80 + c / 64 % 64, 0x80 + c % 64]
    else [0xF0 + c / 262144, 0x80 + c / 4096 % 64, 0x80 + c / 64 % 64, 0x80 + c % 64]
  }

  function Width8(c: Scalar): nat {
    if c < 0x80 then 1 else if c < 0x800 then 2 else if c < 0x10000 then 3 else 4
  }

  function Utf8(t: Text): seq<Byte> {
    if t == [] then [] else Utf8(t[..|t| - 1]) + Encode8(t[|t| - 1])
  }

  /** UTF-16 length of the first `k` scalars. */
  function Units(t: Text, k: nat): nat
    requires k <= |t|
  {
    if k == 0 then 0 else Units(t, k - 1) + Width16(t[k - 1])
  }

  /** UTF-8 length of the first `k` scalars. */
  function Bytes(t: Text, k: nat): nat
    requires k <= |t|
  {
    if k == 0 then 0 else Bytes(t, k - 1) + Width8(t[k - 1])
  }

  /** Line breaks among the first `k` scalars. */
  function Rows(t: Text, k: nat): nat
    requires k <= |t|
  {
    if k == 0 then 0 else Rows(t, k - 1) + if t[k - 1] == NEWLINE then 1 else 0
  }

  /** Scalar index at which the line holding place `k` starts. */
  function LineStart(t: Text, k: nat): (ls: nat)
    requires k <= |t|
    ensures ls <= k
  {
    if k == 0 then 0 else if t[k - 1] == NEWLINE then k else LineStart(t, k - 1)
  }

  datatype Position = Position(line: nat, character: nat)

  /** The (line, character) pair of place `k`; characters count UTF-16 units from the line's start. */
  function PositionOf(t: Text, k: nat): Position
    requires k <= |t|
  {
    UnitsMonotone(t, LineStart(t, k), k);
    Position(Rows(t, k), Units(t, k) - Units(t, LineStart(t, k)))
  }

  predicate Before(p: Position, q: Position) {
    p.line < q.line || (p.line == q.line && p.character < q.character)
  }

  /** Byte `i` is a character boundary of `bytes`: what `str::is_char_boundary` tests. */
  predicate IsCharBoundary(bytes: seq<Byte>, i: nat) {
    i == 0 || i == |bytes| || (i < |bytes| && !(0x80 <= bytes[i] < 0xC0))
  }

  /** Replace the scalars from `i` to `j` by `ins`. */
  function Splice(t: Text, i: nat, j: nat, ins: Text): Text
    requires i <= j <= |t|
  {
    t[..i] + ins + t[j..]
  }

  // ---- Monotonicity ----

  lemma {:induction false} UnitsMonotone(t: Text, i: nat, j: nat)
    requires i <= j <= |t|
    ensures Units(t, i) + (j - i) <= Units(t, j)
    decreases j - i
  {
    if i < j { UnitsMonotone(t, i, j - 1); }
  }

  lemma {:induction false} BytesMonotone(t: Text, i: nat, j: nat)
    requires i <= j <= |t|
    ensures Bytes(t, i) + (j - i) <= Bytes(t, j)
    decreases j - i
  {
    if i < j { BytesMonotone(t, i, j - 1); }
  }

  lemma {:induction false} RowsMonotone(t: Text, i: nat, j: nat)
    requires i <= j <= |t|
    ensures Rows(t, i) <= Rows(t, j)
    decreases j - i
  {
    if i < j { RowsMonotone(t, i, j - 1); }
  }

  /** Two places are on one line exactly when no line break lies between them. */
  lemma {:induction false} SameLine(t: Text, i: nat, j: nat)
    requires i <= j <= |t|
    ensures Rows(t, i) == Rows(t, j) ==> LineStart(t, i) == LineStart(t, j)
    ensures Rows(t, i) < Rows(t, j) ==> i < LineStart(t, j)
    decreases j - i
  {
    if i < j {
      SameLine(t, i, j - 1);
      RowsMonotone(t, i, j - 1);
    }
  }

  lemma LineStartRow(t: Text, k: nat)
    requires k <= |t|
    ensures Rows(t, LineStart(t, k)) == Rows(t, k)
    ensures LineStart(t, LineStart(t, k)) == LineStart(t, k)
    ensures LineStart(t, k) == 0 || t[LineStart(t, k) - 1] == NEWLINE
  {}

  /** The three coordinates order the places of a text exactly as their scalar indices do. */
  lemma {:induction false} CoordinatesAgree(t: Text, i: nat, j: nat)
    requires i <= |t| && j <= |t|
    ensures i < j <==> Units(t, i) < Units(t, j)
    ensures i < j <==> Bytes(t, i) < Bytes(t, j)
    ensures i < j <==> Before(PositionOf(t, i), PositionOf(t, j))
    ensures i == j <==> Units(t, i) == Units(t, j)
    ensures i == j <==> Bytes(t, i) == Bytes(t, j)
    ensures i == j <==> PositionOf(t, i) == PositionOf(t, j)
  {
    if i < j {
      PositionBefore(t, i, j);
      UnitsMonotone(t, i, j);
      BytesMonotone(t, i, j);
    } else {
      UnitsMonotone(t, j, i);
      BytesMonotone(t, j, i);
      if j < i { PositionBefore(t, j, i); }
    }
  }

  lemma {:induction false} PositionBefore(t: Text, i: nat, j: nat)
    requires i < j <= |t|
    ensures Before(PositionOf(t, i), PositionOf(t, j))
  {
    RowsMonotone(t, i, j);
    SameLine(t, i, j);
    UnitsMonotone(t, i, j);
  }

  // ---- Locality: a coordinate depends on the text before the place only ----

  lemma {:induction false} SamePrefix(t: Text, t': Text, k: nat)
    requires k <= |t| && k <= |t'| && t[..k] == t'[..k]
    ensures Units(t, k) == Units(t', k) && Bytes(t, k) == Bytes(t', k)
    ensures Rows(t, k) == Rows(t', k) && LineStart(t, k) == LineStart(t', k)
  {
    if k > 0 {
      assert t[..k - 1] == t[..k][..k - 1] == t'[..k][..k - 1] == t'[..k - 1];
      assert t[k - 1] == t[..k][k - 1] == t'[..k][k - 1] == t'[k - 1];
      SamePrefix(t, t', k - 1);
    }
  }

  lemma {:induction false} SamePrefixPosition(t: Text, t': Text, k: nat)
    requires k <= |t| && k <= |t'| && t[..k] == t'[..k]
    ensures PositionOf(t, k) == PositionOf(t', k)
  {
    SamePrefix(t, t', k);
    var ls := LineStart(t, k);
    assert t[..ls] == t[..k][..ls] == t'[..k][..ls] == t'[..ls];
    SamePrefix(t, t', ls);
  }

  /** Coordinates in a concatenation, for a place in its second part. */
  lemma {:induction false} ConcatCoordinates(a: Text, b: Text, j: nat)
    requires j <= |b|
    ensures Units(a + b, |a| + j) == Units(a, |a|) + Units(b, j)
    ensures Bytes(a + b, |a| + j) == Bytes(a, |a|) + Bytes(b, j)
    ensures Rows(a + b, |a| + j) == Rows(a, |a|) + Rows(b, j)
    ensures LineStart(a + b, |a| + j) == if Rows(b, j) == 0 then LineStart(a, |a|) else |a| + LineStart(b, j)
  {
    if j == 0 {
      assert (a + b)[..|a|] == a[..|a|];
      SamePrefix(a + b, a, |a|);
    } else {
      ConcatCoordinates(a, b, j - 1);
      assert (a + b)[|a| + j - 1] == b[j - 1];
    }
  }

  /** Lengths of a spliced text: the old length, less what was removed, plus what was inserted. */
  lemma {:induction false} SpliceLengths(t: Text, i: nat, j: nat, ins: Text)
    requires i <= j <= |t|
    ensures var r := Splice(t, i, j, ins);
            && Units(r, |r|) == Units(t, |t|) - (Units(t, j) - Units(t, i)) + Units(ins, |ins|)
            && Bytes(r, |r|) == Bytes(t, |t|) - (Bytes(t, j) - Bytes(t, i)) + Bytes(ins, |ins|)
  {
    ConcatLengths(t[..i] + ins, t[j..]);
    ConcatLengths(t[..i], ins);
    CutLengths(t, i);
    CutLengths(t, j);
  }

  lemma {:induction false} ConcatLengths(a: Text, b: Text)
    ensures Units(a + b, |a + b|) == Units(a, |a|) + Units(b, |b|)
    ensures Bytes(a + b, |a + b|) == Bytes(a, |a|) + Bytes(b, |b|)
  {
    ConcatCoordinates(a, b, |b|);
  }

  lemma {:induction false} CutLengths(t: Text, k: nat)
    requires k <= |t|
    ensures Units(t[..k], k) == Units(t, k) && Units(t[k..], |t| - k) == Units(t, |t|) - Units(t, k)
    ensures Bytes(t[..k], k) == Bytes(t, k) && Bytes(t[k..], |t| - k) == Bytes(t, |t|) - Bytes(t, k)
  {
    SamePrefix(t, t[..k], k);
    ConcatLengths(t[..k], t[k..]);
    assert t[..k] + t[k..] == t;
  }

  // ---- UTF-8 ----

  lemma {:induction false} EncodeShape(c: Scalar)
    ensures |Encode8(c)| == Width8(c)
    ensures !(0x80 <= Encode8(c)[0] < 0xC0)
    ensures forall i | 0 < i < |Encode8(c)| :: 0x80 <= Encode8(c)[i] < 0xC0
    ensures forall i | 0 <= i < |Encode8(c)| :: Encode8(c)[i] == NEWLINE <==> c == NEWLINE
  {}

  lemma {:induction false} Utf8Concat(a: Text, b: Text)
    ensures Utf8(a + b) == Utf8(a) + Utf8(b)
  {
    if b == [] {
      assert a + b == a;
    } else {
      var b', c := b[..|b| - 1], b[|b| - 1];
      Utf8Concat(a, b');
      assert a + b == (a + b') + [c];
      Utf8OneMore(a + b', c);
      Associative(Utf8(a), Utf8(b'), Encode8(c));
      assert Utf8(b) == Utf8(b') + Encode8(c);
    }
  }

  lemma {:induction false} Associative<T>(a: seq<T>, b: seq<T>, c: seq<T>)
    ensures a + (b + c) == (a + b) + c
  {}

  lemma {:induction false} Utf8OneMore(t: Text, c: Scalar)
    ensures Utf8(t + [c]) == Utf8(t) + Encode8(c)
  {
    assert (t + [c])[..|t|] == t;
  }

  lemma {:induction false} Utf8Length(t: Text)
    ensures |Utf8(t)| == Bytes(t, |t|)
  {
    if t != [] {
      var t' := t[..|t| - 1];
      Utf8Length(t');
      EncodeShape(t[|t| - 1]);
      SamePrefix(t, t', |t'|);
    }
  }

  /** The encoding of a text, cut at the bytes of place `k`. */
  lemma {:induction false} Utf8Cut(t: Text, k: nat)
    requires k <= |t|
    ensures |Utf8(t)| == Bytes(t, |t|) && Bytes(t, k) <= |Utf8(t)|
    ensures Utf8(t)[..Bytes(t, k)] == Utf8(t[..k]) && Utf8(t)[Bytes(t, k)..] == Utf8(t[k..])
  {
    BytesMonotone(t, k, |t|);
    Utf8Length(t);
    assert t == t[..k] + t[k..];
    Utf8Concat(t[..k], t[k..]);
    Utf8Length(t[..k]);
    SamePrefix(t, t[..k], k);
  }

  lemma {:induction false} Utf8Head(c: Scalar, t: Text)
    ensures Utf8([c] + t) == Encode8(c) + Utf8(t)
  {
    Utf8Concat([c], t);
    assert [c][..0] == [];
  }

  lemma {:induction false} SliceHead<T>(s: seq<T>, i: nat, head: seq<T>, tail: seq<T>)
    requires i <= |s| && s[i..] == head + tail
    ensures i + |head| <= |s| && s[i..i + |head|] == head
  {
    assert |s[i..]| == |head| + |tail|;
    assert s[i..i + |head|] == s[i..][..|head|];
  }

  lemma {:induction false} Utf8Step(t: Text, k: nat)
    requires k < |t|
    ensures Bytes(t, k) <= |Utf8(t)|
    ensures Utf8(t)[Bytes(t, k)..] == Encode8(t[k]) + Utf8(t[k + 1..])
  {
    var c, rest := t[k], t[k + 1..];
    assert Utf8(t[k..]) == Encode8(c) + Utf8(rest) by {
      Utf8Head(c, rest);
      assert t[k..] == [c] + rest;
    }
    Utf8Cut(t, k);
  }

  /** The bytes of scalar `k`. */
  lemma {:induction false} Utf8Scalar(t: Text, k: nat)
    requires k < |t|
    ensures Bytes(t, k + 1) <= |Utf8(t)|
    ensures Utf8(t)[Bytes(t, k)..Bytes(t, k + 1)] == Encode8(t[k])
  {
    Utf8Step(t, k);
    SliceHead(Utf8(t), Bytes(t, k), Encode8(t[k]), Utf8(t[k + 1..]));
    EncodeShape(t[k]);
  }

  /** The bytes of scalar `k`, one by one. */
  lemma {:induction false} Utf8Byte(t: Text, k: nat, i: nat)
    requires k < |t| && Bytes(t, k) <= i < Bytes(t, k + 1)
    ensures i < |Utf8(t)|
    ensures Utf8(t)[i] == NEWLINE <==> t[k] == NEWLINE
    ensures IsCharBoundary(Utf8(t), i) <==> i == Bytes(t, k)
  {
    Utf8Scalar(t, k);
    EncodeShape(t[k]);
    assert Utf8(t)[i] == Utf8(t)[Bytes(t, k)..Bytes(t, k + 1)][i - Bytes(t, k)];
    assert i == 0 ==> Bytes(t, k) == 0;
  }

  /** The scalar whose bytes hold byte `i`. */
  lemma {:induction false} ScalarHolding(t: Text, i: nat) returns (k: nat)
    requires i < Bytes(t, |t|)
    ensures k < |t| && Bytes(t, k) <= i < Bytes(t, k + 1)
  {
    k := 0;
    while i >= Bytes(t, k + 1)
      invariant k < |t| && Bytes(t, k) <= i
      decreases |t| - k
    {
      k := k + 1;
    }
  }

  /** Byte `i` starts a scalar of the text, or ends the text. */
  ghost predicate OnBoundary(t: Text, i: nat) {
    exists k: nat | k <= |t| :: Bytes(t, k) == i
  }

  /** The byte test for a boundary accepts exactly the byte offsets of places. */
  lemma {:induction false} BoundaryIsPlace(t: Text, i: nat)
    ensures i <= |Utf8(t)| && IsCharBoundary(Utf8(t), i) <==> OnBoundary(t, i)
  {
    Utf8Length(t);
    if i < |Utf8(t)| {
      var k := ScalarHolding(t, i);
      Utf8Byte(t, k, i);
      if OnBoundary(t, i) {
        var m: nat :| m <= |t| && Bytes(t, m) == i;
        CoordinatesAgree(t, m, k);
        CoordinatesAgree(t, m, k + 1);
      }
    } else if i == |Utf8(t)| {
      assert Bytes(t, |t|) == i;
    } else if OnBoundary(t, i) {
      var m: nat :| m <= |t| && Bytes(t, m) == i;
      BytesMonotone(t, m, |t|);
    }
  }

  /** The scalar index of a byte boundary. */
  function ScalarIndex(t: Text, i: nat): (k: nat)
    requires OnBoundary(t, i)
    ensures k <= |t| && Bytes(t, k) == i
  {
    PlaceUnique(t);
    var k: nat :| k <= |t| && Bytes(t, k) == i; k
  }

  lemma {:induction false} PlaceUnique(t: Text)
    ensures forall k: nat, m: nat | k <= |t| && m <= |t| && Bytes(t, k) == Bytes(t, m) :: k == m
  {
    forall k: nat, m: nat | k <= |t| && m <= |t| && Bytes(t, k) == Bytes(t, m)
      ensures k == m
    {
      CoordinatesAgree(t, k, m);
    }
  }

  /** Splicing scalars is splicing the bytes between the same places. */
  lemma {:induction false} SpliceBytes(t: Text, i: nat, j: nat, ins: Text)
    requires i <= j <= |t|
    ensures Bytes(t, i) <= Bytes(t, j) <= |Utf8(t)|
    ensures Utf8(Splice(t, i, j, ins)) == Utf8(t)[..Bytes(t, i)] + Utf8(ins) + Utf8(t)[Bytes(t, j)..]
  {
    BytesMonotone(t, i, j);
    Utf8Cut(t, i);
    Utf8Cut(t, j);
    Utf8Concat(t[..i] + ins, t[j..]);
    Utf8Concat(t[..i], ins);
  }

  // ---- Decoding ----

  lemma {:induction false} Encode8Injective(c: Scalar, d: Scalar)
    requires Encode8(c) == Encode8(d)
    ensures c == d
  {
    var e := Encode8(c);
    DecodesTo(c);
    DecodesTo(d);
  }

  /** The scalar that an encoding stands for. */
  function Decode8(e: seq<Byte>): int {
    var byte := (k: int) => if 0 <= k < |e| then e[k] as int else 0;
    if |e| == 1 then byte(0)
    else if |e| == 2 then (byte(0) - 0xC0) * 64 + (byte(1) - 0x80)
    else if |e| == 3 then (byte(0) - 0xE0) * 4096 + (byte(1) - 0x80) * 64 + (byte(2) - 0x80)
    else (byte(0) - 0xF0) * 262144 + (byte(1) - 0x80) * 4096 + (byte(2) - 0x80) * 64 + (byte(3) - 0x80)
  }

  lemma {:induction false} DecodesTo(c: Scalar)
    ensures Decode8(Encode8(c)) == c
  {
    assert c / 4096 == c / 64 / 64 && c / 262144 == c / 4096 / 64;
  }

  /** No two texts have one encoding: the bytes alone say where the last scalar starts. */
  lemma {:induction false} Utf8Injective(a: Text, b: Text)
    requires Utf8(a) == Utf8(b)
    ensures a == b
  {
    Utf8Length(a);
    Utf8Length(b);
    if a != [] && b != [] {
      var a', b', c, d := a[..|a| - 1], b[..|b| - 1], a[|a| - 1], b[|b| - 1];
      LastStartsAt(a, b);
      SplitAtLength(Utf8(a'), Encode8(c), Utf8(b'), Encode8(d));
      Encode8Injective(c, d);
      Utf8Injective(a', b');
      assert a == a' + [c] && b == b' + [d];
    } else if a != [] {
      CoordinatesAgree(a, 0, |a|);
    } else if b != [] {
      CoordinatesAgree(b, 0, |b|);
    }
  }

  lemma {:induction false} LastStartsAt(a: Text, b: Text)
    requires Utf8(a) == Utf8(b) && a != [] && b != []
    ensures |Utf8(a[..|a| - 1])| == |Utf8(b[..|b| - 1])|
    ensures Utf8(a[..|a| - 1]) + Encode8(a[|a| - 1]) == Utf8(b[..|b| - 1]) + Encode8(b[|b| - 1])
  {
    LastStartsBefore(a, b);
    LastStartsBefore(b, a);
    Utf8Length(a[..|a| - 1]);
    Utf8Length(b[..|b| - 1]);
    SamePrefix(a, a[..|a| - 1], |a| - 1);
    SamePrefix(b, b[..|b| - 1], |b| - 1);
  }

  lemma {:induction false} SplitAtLength<T>(a: seq<T>, b: seq<T>, c: seq<T>, d: seq<T>)
    requires a + b == c + d && |a| == |c|
    ensures a == c && b == d
  {
    assert a == (a + b)[..|a|] && b == (a + b)[|a|..];
    assert c == (c + d)[..|c|] && d == (c + d)[|c|..];
  }

  lemma {:induction false} LastStartsBefore(a: Text, b: Text)
    requires Utf8(a) == Utf8(b) && a != [] && b != []
    ensures Bytes(b, |b| - 1) <= Bytes(a, |a| - 1)
  {
    var y := Bytes(b, |b| - 1);
    Utf8Length(a);
    Utf8Length(b);
    BoundaryIsPlace(b, y);
    BoundaryIsPlace(a, y);
    CoordinatesAgree(b, |b| - 1, |b|);
    var k := ScalarIndex(a, y);
    CoordinatesAgree(a, k, |a|);
    CoordinatesAgree(a, |a| - 1, k);
  }
}
