/** Semantic tokens: normalised, sorted, and delta-coded in groups of five numbers, as in the "Integer
    Encoding for Tokens" section of the LSP 3.17 specification. */
module SemanticTokens {
  import opened Edits

  const UINT_MAX: nat := 0xFFFF_FFFF

  const SEMANTIC_TOKEN_TYPES: seq<string> := [
    "namespace", "type", "class", "enum", "interface", "struct", "typeParameter", "parameter", "variable",
    "property", "enumMember", "event", "function", "method", "macro", "keyword", "modifier", "comment",
    "string", "number", "regexp", "operator", "decorator", "tag"]

  const SEMANTIC_TOKEN_MODIFIERS: seq<string> := [
    "declaration", "definition", "readonly", "static", "deprecated", "abstract", "async", "modification",
    "documentation", "defaultLibrary"]

  /** Names of syntax captures, each with the index of its token type. */
  const CAPTURE_TOKEN_TYPES: seq<(string, nat)> := CAPTURES_A_TO_E + CAPTURES_F_TO_L + CAPTURES_M_TO_R + CAPTURES_S_TO_V

  const CAPTURES_A_TO_E: seq<(string, nat)> := [
    ("attribute", 22), ("boolean", 15), ("character", 18), ("comment", 17), ("constant", 10),
    ("constructor", 2), ("embedded", 18), ("enum", 3), ("escape", 18)]

  const CAPTURES_F_TO_L: seq<(string, nat)> := [
    ("float", 19), ("function", 12), ("function.builtin", 12), ("function.call", 12), ("function.method", 13),
    ("function.method.call", 13), ("function.macro", 14), ("keyword", 15), ("label", 9)]

  const CAPTURES_M_TO_R: seq<(string, nat)> := [
    ("macro", 14), ("method", 13), ("module", 0), ("namespace", 0), ("number", 19), ("operator", 21),
    ("property", 9), ("regexp", 20)]

  const CAPTURES_S_TO_V: seq<(string, nat)> := [
    ("string", 18), ("string.regexp", 20), ("tag", 23), ("type", 1), ("type.builtin", 1),
    ("type.parameter", 6), ("variable", 8), ("variable.member", 9), ("variable.parameter", 7)]

  // ---- Names ----

  /** A type or a set of modifiers, as a number or by name. A type's name may be that of a capture, whose
      lower-case parts, as they stand between dots, come with it. */
  datatype TypeSpelling = TypeNumber(n: int) | TypeName(name: string, capture: seq<string>)
  datatype ModifierSpelling = ModifierNumber(n: int) | ModifierNames(names: seq<string>)

  function IndexIn(legend: seq<string>, name: string): (r: Option<nat>)
    ensures r.Some? ==> r.value < |legend| && legend[r.value] == name
    ensures r == None ==> name !in legend
  {
    if legend == [] then None
    else if legend[|legend| - 1] == name then Some(|legend| - 1)
    else IndexIn(legend[..|legend| - 1], name)
  }

  function CaptureEntry(table: seq<(string, nat)>, name: string): (r: Option<nat>)
    ensures r.Some? ==> (name, r.value) in table
    ensures r == None ==> forall e | e in table :: e.0 != name
  {
    if table == [] then None
    else if table[|table| - 1].0 == name then Some(table[|table| - 1].1)
    else CaptureEntry(table[..|table| - 1], name)
  }

  /** Parts joined by dots. */
  function Dotted(parts: seq<string>): string {
    if parts == [] then "" else if |parts| == 1 then parts[0]
    else Dotted(parts[..|parts| - 1]) + "." + parts[|parts| - 1]
  }

  /** The entry of the longest dotted prefix that has one, of `n` parts at most. */
  function LongestEntry(table: seq<(string, nat)>, parts: seq<string>, n: nat): Option<nat>
    requires n <= |parts|
  {
    if n == 0 then None
    else
      var entry := CaptureEntry(table, Dotted(parts[..n]));
      if entry.Some? then entry else LongestEntry(table, parts, n - 1)
  }

  /** The entry found is that of the longest prefix with one, and none is found only if no prefix has one. */
  lemma {:induction false} LongestEntryExactly(table: seq<(string, nat)>, parts: seq<string>, n: nat)
    requires n <= |parts|
    ensures var entry := LongestEntry(table, parts, n);
            && (entry.Some? ==>
                  exists k | 0 < k <= n ::
                    && (Dotted(parts[..k]), entry.value) in table
                    && forall m | k < m <= n :: HasNoEntry(table, Dotted(parts[..m])))
            && (entry == None ==> forall m | 0 < m <= n :: HasNoEntry(table, Dotted(parts[..m])))
  {
    if n > 0 {
      LongestEntryExactly(table, parts, n - 1);
      var entry := CaptureEntry(table, Dotted(parts[..n]));
      if entry.Some? { assert (Dotted(parts[..n]), entry.value) in table; }
    }
  }

  predicate HasNoEntry(table: seq<(string, nat)>, name: string) {
    forall e | e in table :: e.0 != name
  }

  /** The type of a capture, given by its parts: that of its longest known prefix, else that of its own name. */
  function TypeForCapture(table: seq<(string, nat)>, legend: seq<string>, capture: seq<string>): Option<nat> {
    var entry := LongestEntry(table, capture, |capture|);
    if entry.Some? then entry else IndexIn(legend, Dotted(capture))
  }

  /** Drop parts from the end until an entry is found. */
  method SemanticTokenTypeForCapture(table: seq<(string, nat)>, legend: seq<string>, capture: seq<string>)
    returns (index: Option<nat>)
    requires capture != []
    ensures index == TypeForCapture(table, legend, capture)
  {
    var parts := capture;
    assert capture[..|capture|] == capture;
    index := CaptureEntry(table, Dotted(parts));
    while |parts| > 1 && index == None
      invariant 0 < |parts| <= |capture| && parts == capture[..|parts|]
      invariant LongestEntry(table, capture, |capture|) == LongestEntry(table, capture, |parts|)
      invariant index == CaptureEntry(table, Dotted(parts))
      decreases |parts|
    {
      parts := parts[..|parts| - 1];
      index := CaptureEntry(table, Dotted(parts));
    }
    if index == None {
      index := IndexIn(legend, Dotted(capture));
    }
  }

  /** The index of a type: a number that is one, the index of its name, or the type of the capture so named. */
  function TypeIndex(spelling: TypeSpelling): Option<nat> {
    match spelling
    case TypeNumber(n) => if 0 <= n < |SEMANTIC_TOKEN_TYPES| then Some(n) else None
    case TypeName(name, capture) =>
      var exact := IndexIn(SEMANTIC_TOKEN_TYPES, name);
      if exact.Some? || capture == [] then exact else TypeForCapture(CAPTURE_TOKEN_TYPES, SEMANTIC_TOKEN_TYPES, capture)
  }

  /** A name of the legend is its own type, whatever capture it may also be; any other goes by its capture; a
      number counts only if the legend has it. */
  lemma {:induction false} TypeIndexExactly(name: string, capture: seq<string>, n: int)
    ensures name in SEMANTIC_TOKEN_TYPES ==>
              var index := TypeIndex(TypeName(name, capture));
              index.Some? && index.value < |SEMANTIC_TOKEN_TYPES| && SEMANTIC_TOKEN_TYPES[index.value] == name
    ensures name !in SEMANTIC_TOKEN_TYPES && capture != [] ==>
              TypeIndex(TypeName(name, capture)) == TypeForCapture(CAPTURE_TOKEN_TYPES, SEMANTIC_TOKEN_TYPES, capture)
    ensures TypeIndex(TypeNumber(n)) == if 0 <= n < 24 then Some(n) else None
  {
    LegendSize();
    var index := IndexIn(SEMANTIC_TOKEN_TYPES, name);
  }

  predicate AllBelow(table: seq<(string, nat)>, n: nat) {
    forall i | 0 <= i < |table| :: table[i].1 < n
  }

  lemma {:induction false} CapturesKnown()
    ensures AllBelow(CAPTURE_TOKEN_TYPES, |SEMANTIC_TOKEN_TYPES|)
  {
    LegendSize();
    CapturesToL();
    CapturesFromM();
  }

  lemma {:induction false} LegendSize()
    ensures |SEMANTIC_TOKEN_TYPES| == 24
  {}

  lemma {:induction false} CapturesToL()
    ensures AllBelow(CAPTURES_A_TO_E, 24) && AllBelow(CAPTURES_F_TO_L, 24)
  {}

  lemma {:induction false} CapturesFromM()
    ensures AllBelow(CAPTURES_M_TO_R, 24) && AllBelow(CAPTURES_S_TO_V, 24)
  {}

  lemma {:induction false} EntryBelow(table: seq<(string, nat)>, name: string, n: nat)
    requires AllBelow(table, n)
    ensures var entry := CaptureEntry(table, name); entry.Some? ==> entry.value < n
  {
    if CaptureEntry(table, name).Some? {
      var i :| 0 <= i < |table| && table[i] == (name, CaptureEntry(table, name).value);
      assert table[i].1 < n;
    }
  }

  lemma {:induction false} EntryKnown(table: seq<(string, nat)>, parts: seq<string>, k: nat, n: nat)
    requires k <= |parts| && AllBelow(table, n)
    ensures var entry := LongestEntry(table, parts, k); entry.Some? ==> entry.value < n
  {
    if k > 0 {
      EntryKnown(table, parts, k - 1, n);
      EntryBelow(table, Dotted(parts[..k]), n);
    }
  }

  /** Whatever the spelling, an index that is found is one of the legend. */
  lemma {:induction false} TypeIndexKnown(spelling: TypeSpelling)
    ensures var index := TypeIndex(spelling); index.Some? ==> index.value < |SEMANTIC_TOKEN_TYPES|
  {
    if spelling.TypeName? {
      CapturesKnown();
      EntryKnown(CAPTURE_TOKEN_TYPES, spelling.capture, |spelling.capture|, |SEMANTIC_TOKEN_TYPES|);
    }
  }

  // ---- Modifiers ----

  /** The number with the given binary digits, lowest first. */
  function Value(bits: seq<bool>): nat {
    if bits == [] then 0 else (if bits[0] then 1 else 0) + 2 * Value(bits[1..])
  }

  predicate Bit(n: nat, i: nat) {
    if i == 0 then n % 2 == 1 else Bit(n / 2, i - 1)
  }

  lemma {:induction false} ValueBits(bits: seq<bool>, i: nat)
    ensures Bit(Value(bits), i) <==> i < |bits| && bits[i]
    decreases i
  {
    if bits == [] {
      ZeroBits(i);
    } else {
      assert Value(bits) % 2 == (if bits[0] then 1 else 0) && Value(bits) / 2 == Value(bits[1..]);
      if i > 0 { ValueBits(bits[1..], i - 1); }
    }
  }

  lemma {:induction false} ZeroBits(i: nat)
    ensures !Bit(0, i)
  {
    if i > 0 { ZeroBits(i - 1); }
  }

  /** For each modifier of the legend, whether it is named. */
  function Named(names: seq<string>): seq<bool> {
    seq(|SEMANTIC_TOKEN_MODIFIERS|,
      i requires 0 <= i < |SEMANTIC_TOKEN_MODIFIERS| => SEMANTIC_TOKEN_MODIFIERS[i] in names)
  }

  function ModifierBitset(spelling: ModifierSpelling): nat {
    match spelling
    case ModifierNumber(n) => UintFrom(Some(n)).GetOr(0)
    case ModifierNames(names) => Value(Named(names))
  }

  /** Set the bit of each name that the legend has. */
  method SemanticTokenModifierBitset(spelling: ModifierSpelling) returns (bitset: nat)
    ensures bitset == ModifierBitset(spelling)
    ensures spelling.ModifierNumber? ==> bitset == if 0 <= spelling.n <= UINT_MAX then spelling.n else 0
  {
    match spelling {
      case ModifierNumber(n) =>
        return UintFrom(Some(n)).GetOr(0);
      case ModifierNames(names) =>
        var bits := seq(|SEMANTIC_TOKEN_MODIFIERS|, i => false);
        for k := 0 to |names|
          invariant bits == Named(names[..k])
        {
          NamedOneMore(names, k);
          var index := IndexIn(SEMANTIC_TOKEN_MODIFIERS, names[k]);
          if index.Some? { bits := bits[index.value := true]; }
        }
        assert names[..|names|] == names;
        return Value(bits);
    }
  }

  lemma {:induction false} NamedOneMore(names: seq<string>, k: nat)
    requires k < |names|
    ensures var index, bits := IndexIn(SEMANTIC_TOKEN_MODIFIERS, names[k]), Named(names[..k]);
            Named(names[..k + 1]) == if index.Some? then bits[index.value := true] else bits
  {
    assert names[..k + 1] == names[..k] + [names[k]];
    LegendDistinct();
  }

  lemma {:induction false} LegendDistinct()
    ensures forall i, j | 0 <= i < j < |SEMANTIC_TOKEN_MODIFIERS| ::
            SEMANTIC_TOKEN_MODIFIERS[i] != SEMANTIC_TOKEN_MODIFIERS[j]
  {
  }

  /** A bit is set exactly when the legend's modifier at its place is named, and the number fits 32 bits. */
  lemma {:induction false} BitsetExactly(names: seq<string>, i: nat)
    ensures var bitset := ModifierBitset(ModifierNames(names));
            && bitset < 1024
            && (Bit(bitset, i) <==> i < |SEMANTIC_TOKEN_MODIFIERS| && SEMANTIC_TOKEN_MODIFIERS[i] in names)
  {
    ValueBits(Named(names), i);
    TenBits(Named(names));
  }

  lemma {:induction false} ModifiersFit(spelling: ModifierSpelling)
    ensures ModifierBitset(spelling) <= UINT_MAX
  {
    if spelling.ModifierNames? { TenBits(Named(spelling.names)); }
  }

  function Power2(n: nat): nat { if n == 0 then 1 else 2 * Power2(n - 1) }

  lemma {:induction false} ValueBounded(bits: seq<bool>)
    ensures Value(bits) < Power2(|bits|)
  {
    if bits != [] { ValueBounded(bits[1..]); }
  }

  lemma {:induction false} TenBits(bits: seq<bool>)
    requires |bits| == 10
    ensures Value(bits) < 1024
  {
    ValueBounded(bits);
    assert Power2(3) == 8 && Power2(6) == 8 * Power2(3) && Power2(10) == 16 * Power2(6);
  }

  // ---- Tokens ----

  /** A token as received: each field the first of its spellings that is present, as a number. */
  datatype RawToken = RawToken(
    line: Option<int>, startCharacter: Option<int>, endLine: Option<int>, endCharacter: Option<int>,
    length: Option<int>, tokenType: Option<TypeSpelling>, tokenModifiers: Option<ModifierSpelling>)

  datatype Token = Token(line: nat, startCharacter: nat, length: nat, tokenType: nat, tokenModifiers: nat)

  predicate IsUint(n: int) { 0 <= n <= UINT_MAX }

  function UintFrom(value: Option<int>): Option<nat> {
    if value.Some? && IsUint(value.value) then Some(value.value) else None
  }

  function TokenLength(raw: RawToken): Option<int> {
    var explicit := UintFrom(raw.length);
    if explicit.Some? then explicit
    else if UintFrom(raw.endLine) == UintFrom(raw.line) && UintFrom(raw.endCharacter).Some? then
      Some(UintFrom(raw.endCharacter).value - UintFrom(raw.startCharacter).GetOr(0))
    else None
  }

  /** The token, if its place, a positive length and a known type can be read. */
  function Normalized(raw: RawToken): Option<Token> {
    var line, start, length := UintFrom(raw.line), UintFrom(raw.startCharacter), TokenLength(raw);
    var type' := if raw.tokenType.Some? then TypeIndex(raw.tokenType.value) else None;
    var modifiers := if raw.tokenModifiers.Some? then ModifierBitset(raw.tokenModifiers.value) else 0;
    if line == None || start == None || length == None || length.value <= 0 || type' == None then None
    else Some(Token(line.value, start.value, length.value, type'.value, modifiers))
  }

  function NormalizedAll(raw: seq<RawToken>): seq<Token> {
    if raw == [] then []
    else
      var last := Normalized(raw[|raw| - 1]);
      NormalizedAll(raw[..|raw| - 1]) + if last.Some? then [last.value] else []
  }

  /** Normalising keeps the order: the tokens of a list are those of its first part and then those of the rest. */
  lemma {:induction false} NormalizedConcat(a: seq<RawToken>, b: seq<RawToken>)
    ensures NormalizedAll(a + b) == NormalizedAll(a) + NormalizedAll(b)
  {
    hide Normalized;
    if b == [] {
      assert a + b == a;
    } else {
      NormalizedConcat(a, b[..|b| - 1]);
      assert (a + b)[..|a + b| - 1] == a + b[..|b| - 1];
    }
  }

  /** A token that can be read is kept as it reads, and any other leaves nothing. */
  lemma {:induction false} NormalizedOne(raw: RawToken)
    ensures NormalizedAll([raw]) == if Normalized(raw) == None then [] else [Normalized(raw).value]
  {
    hide Normalized;
    assert [raw][..0] == [];
  }

  /** A token's length is the one it gives, if that fits 32 bits; else the distance from its start to its end, if
      both are on one line. It is dropped exactly when there is neither, or the length is not positive. */
  lemma {:induction false} NormalizedExactly(raw: RawToken, line: nat, start: nat, index: nat)
    requires raw.line == Some(line) && raw.startCharacter == Some(start) && line <= UINT_MAX && start <= UINT_MAX
    requires raw.tokenType.Some? && TypeIndex(raw.tokenType.value) == Some(index)
    ensures var given := raw.length.Some? && 0 <= raw.length.value <= UINT_MAX;
            var ends := raw.endLine == Some(line) && raw.endCharacter.Some? && 0 <= raw.endCharacter.value <= UINT_MAX;
            && (Normalized(raw).Some? <==>
                  if given then raw.length.value > 0 else ends && raw.endCharacter.value > start)
            && (Normalized(raw).Some? ==>
                  var t := Normalized(raw).value;
                  && t.line == line && t.startCharacter == start && t.tokenType == index
                  && t.length == (if given then raw.length.value else raw.endCharacter.value - start)
                  && t.tokenModifiers ==
                     if raw.tokenModifiers.Some? then ModifierBitset(raw.tokenModifiers.value) else 0)
  {}

  /** A token whose place or type cannot be read is dropped. */
  lemma {:induction false} UnreadableDropped(raw: RawToken)
    requires || raw.line == None || !(0 <= raw.line.value <= UINT_MAX)
             || raw.startCharacter == None || !(0 <= raw.startCharacter.value <= UINT_MAX)
             || raw.tokenType == None || TypeIndex(raw.tokenType.value) == None
    ensures Normalized(raw) == None
  {}

  predicate InRange(t: Token) {
    t.line <= UINT_MAX && t.startCharacter <= UINT_MAX && 0 < t.length <= UINT_MAX
      && t.tokenType < |SEMANTIC_TOKEN_TYPES|
      && t.tokenModifiers <= UINT_MAX
  }

  lemma {:induction false} NormalizedInRange(raw: seq<RawToken>)
    ensures forall t | t in NormalizedAll(raw) :: InRange(t)
  {
    if raw != [] {
      NormalizedInRange(raw[..|raw| - 1]);
      var last := raw[|raw| - 1];
      if last.tokenType.Some? { TypeIndexKnown(last.tokenType.value); }
      if last.tokenModifiers.Some? { ModifiersFit(last.tokenModifiers.value); }
    }
  }

  // ---- Order ----

  predicate NotAfter(a: Token, b: Token) {
    a.line < b.line || (a.line == b.line && a.startCharacter <= b.startCharacter)
  }

  predicate Ordered(s: seq<Token>) {
    forall i, j | 0 <= i < j < |s| :: NotAfter(s[i], s[j])
  }

  /** Put `x` after everything that is not after it. */
  function Placed(s: seq<Token>, x: Token): seq<Token> {
    if s == [] then [x]
    else if NotAfter(s[|s| - 1], x) then s + [x]
    else Placed(s[..|s| - 1], x) + [s[|s| - 1]]
  }

  /** The stable sort by line, then start. */
  function Sorted(s: seq<Token>): seq<Token> {
    if s == [] then [] else Placed(Sorted(s[..|s| - 1]), s[|s| - 1])
  }

  /** Tokens at one place, in order. */
  function At(s: seq<Token>, line: nat, start: nat): seq<Token> {
    if s == [] then []
    else At(s[..|s| - 1], line, start) + if s[|s| - 1].line == line && s[|s| - 1].startCharacter == start then
      [s[|s| - 1]] else []
  }

  lemma {:induction false} PlacedElements(s: seq<Token>, x: Token)
    ensures multiset(Placed(s, x)) == multiset(s) + multiset{x}
  {
    if s != [] && !NotAfter(s[|s| - 1], x) {
      PlacedElements(s[..|s| - 1], x);
      OneMoreElement(s);
      OneMoreElement(Placed(s, x));
    }
  }

  lemma {:induction false} PlacedOrdered(s: seq<Token>, x: Token)
    requires Ordered(s)
    ensures Ordered(Placed(s, x))
  {
    if s == [] {
    } else if NotAfter(s[|s| - 1], x) {
      forall i | 0 <= i < |s|
        ensures NotAfter(s[i], x)
      {
        assert i == |s| - 1 || NotAfter(s[i], s[|s| - 1]);
      }
    } else {
      var init := s[..|s| - 1];
      PlacedOrdered(init, x);
      PlacedElements(init, x);
      var placed := Placed(init, x);
      forall i | 0 <= i < |placed|
        ensures NotAfter(placed[i], s[|s| - 1])
      {
        assert placed[i] in multiset(placed);
        if placed[i] != x { assert placed[i] in init; }
      }
    }
  }

  lemma {:induction false} PlacedTies(s: seq<Token>, x: Token, line: nat, start: nat)
    requires Ordered(s)
    ensures At(Placed(s, x), line, start) == At(s, line, start) + if x.line == line && x.startCharacter == start then
            [x] else []
  {
    if s == [] {
      assert [x][..0] == [];
    } else if NotAfter(s[|s| - 1], x) {
      assert (s + [x])[..|s|] == s;
    } else {
      var init, last := s[..|s| - 1], s[|s| - 1];
      PlacedTies(init, x, line, start);
      var p := Placed(init, x) + [last];
      assert p[..|p| - 1] == Placed(init, x);
    }
  }

  lemma {:induction false} SortedOrdered(s: seq<Token>)
    ensures Ordered(Sorted(s))
  {
    if s != [] {
      SortedOrdered(s[..|s| - 1]);
      PlacedOrdered(Sorted(s[..|s| - 1]), s[|s| - 1]);
    }
  }

  lemma {:induction false} OneMoreElement(s: seq<Token>)
    requires s != []
    ensures multiset(s) == multiset(s[..|s| - 1]) + multiset{s[|s| - 1]}
  {
    assert s == s[..|s| - 1] + [s[|s| - 1]];
  }

  lemma {:induction false} SortedPermutes(s: seq<Token>)
    ensures multiset(Sorted(s)) == multiset(s)
  {
    if s != [] {
      var init, last := s[..|s| - 1], s[|s| - 1];
      SortedPermutes(init);
      PlacedElements(Sorted(init), last);
      OneMoreElement(s);
    }
  }

  /** The sort orders, loses nothing, and keeps the order of tokens at one place. */
  lemma {:induction false} SortedIsStable(s: seq<Token>, line: nat, start: nat)
    ensures Ordered(Sorted(s)) && multiset(Sorted(s)) == multiset(s) && At(Sorted(s), line, start) == At(s, line, start)
  {
    SortedOrdered(s);
    SortedPermutes(s);
    SortedKeepsTies(s, line, start);
  }

  lemma {:induction false} SortedKeepsTies(s: seq<Token>, line: nat, start: nat)
    ensures At(Sorted(s), line, start) == At(s, line, start)
  {
    if s != [] {
      SortedKeepsTies(s[..|s| - 1], line, start);
      SortedOrdered(s[..|s| - 1]);
      PlacedTies(Sorted(s[..|s| - 1]), s[|s| - 1], line, start);
    }
  }

  // ---- Delta coding ----

  function Last(s: seq<Token>): Token {
    if s == [] then Token(0, 0, 0, 0, 0) else s[|s| - 1]
  }

  /** What a receiver reads out of the numbers: each group's place counted from the one before. */
  function Decoded(data: seq<nat>): seq<Token>
    requires |data| % 5 == 0
  {
    if data == [] then []
    else
      var n := |data| - 5;
      var before := Decoded(data[..n]);
      var start := if data[n] == 0 then Last(before).startCharacter + data[n + 1] else data[n + 1];
      before + [Token(Last(before).line + data[n], start, data[n + 2], data[n + 3], data[n + 4])]
  }

  predicate AllUint(data: seq<int>) {
    forall i | 0 <= i < |data| :: IsUint(data[i])
  }

  /** Every number fits 32 bits, and a receiver reads back exactly the normalised tokens in stable order. */
  method EncodeSemanticTokens(raw: seq<RawToken>) returns (data: seq<nat>)
    ensures |data| == 5 * |NormalizedAll(raw)| && AllUint(data)
    ensures Decoded(data) == Sorted(NormalizedAll(raw))
  {
    var normalized := [];
    for i := 0 to |raw|
      invariant normalized == NormalizedAll(raw[..i])
    {
      assert raw[..i + 1][..i] == raw[..i];
      var token := Normalized(raw[i]);
      if token.Some? { normalized := normalized + [token.value]; }
    }
    assert raw[..|raw|] == raw;
    SortedFits(raw);
    data := EncodeSorted(Sorted(normalized));
  }

  lemma {:induction false} SortedFits(raw: seq<RawToken>)
    ensures var s := Sorted(NormalizedAll(raw));
            Ordered(s) && |s| == |NormalizedAll(raw)| && forall t | t in s :: InRange(t)
  {
    var s := Sorted(NormalizedAll(raw));
    SortedOrdered(NormalizedAll(raw));
    SortedPermutes(NormalizedAll(raw));
    NormalizedInRange(raw);
    assert |multiset(s)| == |multiset(NormalizedAll(raw))|;
    forall t | t in s
      ensures InRange(t)
    {
      assert t in multiset(s);
    }
  }

  /** Delta-code tokens in order. The guard that would skip a token never holds. */
  method EncodeSorted(tokens: seq<Token>) returns (data: seq<nat>)
    requires Ordered(tokens) && forall t | t in tokens :: InRange(t)
    ensures |data| == 5 * |tokens| && AllUint(data) && Decoded(data) == tokens
  {
    data := [];
    var previousLine, previousStart := 0, 0;
    for n := 0 to |tokens|
      invariant |data| == 5 * n && Codes(data, tokens[..n])
      invariant previousLine == Last(tokens[..n]).line && previousStart == Last(tokens[..n]).startCharacter
    {
      var token := tokens[n];
      assert n > 0 ==> NotAfter(tokens[n - 1], token);
      var deltaLine: int := token.line - previousLine;
      var deltaStart: int := if deltaLine == 0 then token.startCharacter - previousStart else token.startCharacter;
      if deltaLine < 0 || deltaStart < 0 {
        assert false;
      }
      PushGroup(data, tokens[..n], deltaLine, deltaStart, token);
      data := data + [deltaLine, deltaStart, token.length, token.tokenType, token.tokenModifiers];
      previousLine, previousStart := token.line, token.startCharacter;
      assert tokens[..n + 1] == tokens[..n] + [token];
    }
    assert tokens[..|tokens|] == tokens;
  }

  /** `data` is sound and decodes to `tokens`. */
  predicate Codes(data: seq<nat>, tokens: seq<Token>) {
    |data| % 5 == 0 && AllUint(data) && Decoded(data) == tokens
  }

  lemma {:induction false} PushGroup(data: seq<nat>, tokens: seq<Token>, deltaLine: nat, deltaStart: nat, t: Token)
    requires Codes(data, tokens) && InRange(t)
    requires deltaLine == t.line - Last(tokens).line
    requires deltaStart == if deltaLine == 0 then t.startCharacter - Last(tokens).startCharacter else t.startCharacter
    ensures Codes(data + [deltaLine, deltaStart, t.length, t.tokenType, t.tokenModifiers], tokens + [t])
  {
    hide Decoded, AllUint, Last;
    AppendedUints(data, deltaLine, deltaStart, t);
    DecodedOneMore(data, deltaLine, deltaStart, t);
  }

  lemma {:induction false} AppendedUints(data: seq<nat>, deltaLine: nat, deltaStart: nat, t: Token)
    requires AllUint(data) && InRange(t) && deltaLine <= UINT_MAX && deltaStart <= UINT_MAX
    ensures AllUint(data + [deltaLine, deltaStart, t.length, t.tokenType, t.tokenModifiers])
  {
    LegendSize();
    assert AllUint([deltaLine, deltaStart, t.length, t.tokenType, t.tokenModifiers]);
  }

  lemma {:induction false} DecodedOneMore(data: seq<nat>, deltaLine: nat, deltaStart: nat, t: Token)
    requires |data| % 5 == 0
    requires deltaLine == t.line - Last(Decoded(data)).line
    requires deltaStart ==
             if deltaLine == 0 then t.startCharacter - Last(Decoded(data)).startCharacter else t.startCharacter
    ensures var all := data + [deltaLine, deltaStart, t.length, t.tokenType, t.tokenModifiers];
            |all| % 5 == 0 && Decoded(all) == Decoded(data) + [t]
  {
    var all := data + [deltaLine, deltaStart, t.length, t.tokenType, t.tokenModifiers];
    assert all[..|all| - 5] == data;
  }

  /** Already encoded numbers are accepted as they are, or not at all. */
  method NormalizeEncodedData(value: seq<int>) returns (data: Option<seq<int>>)
    ensures data == if |value| % 5 == 0 && AllUint(value) then Some(value) else None
  {
    if |value| % 5 != 0 {
      return None;
    }
    var copied := [];
    for i := 0 to |value|
      invariant copied == value[..i] && AllUint(copied)
    {
      if !IsUint(value[i]) {
        return None;
      }
      copied := copied + [value[i]];
    }
    assert copied == value;
    return Some(copied);
  }
}
