/** Key sequences: bindings indexed by their first stroke, resolution of what has been typed, and the
    pending-sequence state of the workbench. */
module Keybindings {
  import opened Edits

  type Stroke = string

  /** `when` names the binding's condition, if it has one; `command` is what it runs. */
  datatype Binding = Binding(sequence: seq<Stroke>, command: nat, isGlobal: bool, when: Option<nat>)

  datatype IndexedBinding = IndexedBinding(binding: Binding, index: nat, parts: seq<Stroke>)

  datatype Context = Context(suppress: bool, holds: nat -> bool)

  /** The strokes of a sequence, blanks dropped. */
  function Parts(sequence: seq<Stroke>): seq<Stroke> {
    if sequence == [] then []
    else Parts(sequence[..|sequence| - 1]) + if sequence[|sequence| - 1] != "" then [sequence[|sequence| - 1]] else []
  }

  /** Blanks are dropped, nothing else is, and the order stays. */
  lemma {:induction false} PartsExactly(a: seq<Stroke>, x: Stroke)
    ensures Parts([]) == [] && Parts(a + [x]) == if x == "" then Parts(a) else Parts(a) + [x]
  {
    assert (a + [x])[..|a|] == a;
    assert Parts(a) + [] == Parts(a);
  }

  function Indexed(bindings: seq<Binding>, i: nat): IndexedBinding
    requires i < |bindings|
  {
    IndexedBinding(bindings[i], i, Parts(bindings[i].sequence))
  }

  predicate IsActive(b: Binding, context: Context) {
    (context.suppress ==> b.isGlobal) && (b.when.Some? ==> context.holds(b.when.value))
  }

  predicate Matches(parts: seq<Stroke>, input: seq<Stroke>) {
    input <= parts
  }

  // ---- The index ----

  type Index = map<Stroke, seq<IndexedBinding>>

  /** The bindings among the first `n` that start with `stroke`, in order. */
  function StartingWith(bindings: seq<Binding>, n: nat, stroke: Stroke): seq<IndexedBinding>
    requires n <= |bindings|
  {
    if n == 0 then []
    else
      var b := Indexed(bindings, n - 1);
      StartingWith(bindings, n - 1, stroke) + if b.parts != [] && b.parts[0] == stroke then [b] else []
  }

  predicate IsIndex(index: Index, bindings: seq<Binding>, n: nat)
    requires n <= |bindings|
  {
    && (forall stroke | stroke in index :: index[stroke] == StartingWith(bindings, n, stroke))
    && (forall i | 0 <= i < n :: Indexed(bindings, i).parts != [] ==> Indexed(bindings, i).parts[0] in index)
  }

  method CreateKeybindingIndex(bindings: seq<Binding>) returns (index: Index)
    ensures IsIndex(index, bindings, |bindings|)
  {
    index := map[];
    for i := 0 to |bindings|
      invariant IsIndex(index, bindings, i)
    {
      var b := Indexed(bindings, i);
      if b.parts == [] {
        NothingToIndex(index, bindings, i);
      } else {
        index := WithBinding(index, bindings, i, b.parts[0]);
      }
    }
  }

  /** Append a binding to the list of its first stroke, made on first use. */
  method WithBinding(index: Index, bindings: seq<Binding>, i: nat, first: Stroke) returns (index': Index)
    requires i < |bindings| && IsIndex(index, bindings, i)
    requires Indexed(bindings, i).parts != [] && Indexed(bindings, i).parts[0] == first
    ensures IsIndex(index', bindings, i + 1)
  {
    index' := index;
    if first !in index' {
      NoneStarting(bindings, i, first);
      index' := index'[first := []];
    }
    index' := index'[first := index'[first] + [Indexed(bindings, i)]];
  }

  lemma {:induction false} NothingToIndex(index: Index, bindings: seq<Binding>, i: nat)
    requires i < |bindings| && IsIndex(index, bindings, i) && Indexed(bindings, i).parts == []
    ensures IsIndex(index, bindings, i + 1)
  {
    forall stroke | stroke in index
      ensures index[stroke] == StartingWith(bindings, i + 1, stroke)
    {
      assert StartingWith(bindings, i, stroke) + [] == StartingWith(bindings, i, stroke);
    }
  }

  lemma {:induction false} NoneStarting(bindings: seq<Binding>, n: nat, stroke: Stroke)
    requires n <= |bindings|
    requires forall i | 0 <= i < n :: Indexed(bindings, i).parts != [] ==> Indexed(bindings, i).parts[0] != stroke
    ensures StartingWith(bindings, n, stroke) == []
  {
    if n > 0 { NoneStarting(bindings, n - 1, stroke); }
  }

  /** The candidates for a stroke are exactly the bindings that start with it. */
  lemma {:induction false} Candidates(bindings: seq<Binding>, n: nat, stroke: Stroke, b: IndexedBinding)
    requires n <= |bindings|
    ensures b in StartingWith(bindings, n, stroke) <==>
            b.index < n && b == Indexed(bindings, b.index) && b.parts != [] && b.parts[0] == stroke
  {
    if n > 0 {
      Candidates(bindings, n - 1, stroke, b);
      var before, last := StartingWith(bindings, n - 1, stroke), Indexed(bindings, n - 1);
      InOneMore(before, last, b);
      SameBinding(bindings, n - 1, b);
    }
  }

  lemma {:induction false} InOneMore<T>(s: seq<T>, x: T, y: T)
    ensures y in s + [x] <==> y in s || y == x
  {}

  lemma {:induction false} SameBinding(bindings: seq<Binding>, i: nat, b: IndexedBinding)
    requires i < |bindings|
    ensures b.index == i && b == Indexed(bindings, b.index) <==> b == Indexed(bindings, i)
  {}

  // ---- Resolution ----

  datatype Resolution = Resolution(exact: Option<IndexedBinding>, hasPending: bool)

  predicate IsExact(b: IndexedBinding, input: seq<Stroke>, context: Context) {
    IsActive(b.binding, context) && b.parts == input
  }

  predicate IsExtension(b: IndexedBinding, input: seq<Stroke>, context: Context) {
    IsActive(b.binding, context) && input < b.parts
  }

  /** What resolving means, over all bindings: the latest active exact match, and whether any active
      binding strictly extends the input. */
  ghost predicate Resolves(bindings: seq<Binding>, input: seq<Stroke>, context: Context, r: Resolution) {
    && (match r.exact
        case Some(b) =>
          && b.index < |bindings| && b == Indexed(bindings, b.index) && IsExact(b, input, context)
          && (forall i | b.index < i < |bindings| :: !IsExact(Indexed(bindings, i), input, context))
        case None => forall i | 0 <= i < |bindings| :: !IsExact(Indexed(bindings, i), input, context))
    && (r.hasPending <==> exists i | 0 <= i < |bindings| :: IsExtension(Indexed(bindings, i), input, context))
  }

  lemma {:induction false} ResolvesUniquely(bindings: seq<Binding>, input: seq<Stroke>, context: Context,
      r: Resolution, r': Resolution)
    requires Resolves(bindings, input, context, r) && Resolves(bindings, input, context, r')
    ensures r == r'
  {
    if r.exact.Some? && r'.exact.Some? {
      assert !(r.exact.value.index < r'.exact.value.index) && !(r'.exact.value.index < r.exact.value.index);
    }
  }

  /** Put a binding where its index falls in descending order. */
  function Placed(s: seq<IndexedBinding>, b: IndexedBinding): seq<IndexedBinding> {
    if s == [] then [b] else if s[0].index < b.index then [b] + s else [s[0]] + Placed(s[1..], b)
  }

  function ByIndexDescending(s: seq<IndexedBinding>): seq<IndexedBinding> {
    if s == [] then [] else Placed(ByIndexDescending(s[..|s| - 1]), s[|s| - 1])
  }

  /** The head of the sorted list is an element with the largest index. */
  lemma {:induction false} HeadIsLatest(s: seq<IndexedBinding>)
    ensures s == [] <==> ByIndexDescending(s) == []
    ensures s != [] ==> ByIndexDescending(s)[0] in s && forall b | b in s :: b.index <= ByIndexDescending(s)[0].index
  {
    if s != [] {
      var init, last := s[..|s| - 1], s[|s| - 1];
      HeadIsLatest(init);
      assert s == init + [last];
    }
  }

  /** The plain scan: later bindings override earlier ones. */
  function Scan(bindings: seq<Binding>, n: nat, input: seq<Stroke>, context: Context): Resolution
    requires n <= |bindings|
  {
    if n == 0 then Resolution(None, false)
    else
      var before, b := Scan(bindings, n - 1, input, context), Indexed(bindings, n - 1);
      Resolution(
        if IsExact(b, input, context) then Some(b) else before.exact,
        before.hasPending || IsExtension(b, input, context))
  }

  lemma {:induction false} ScanResolves(bindings: seq<Binding>, n: nat, input: seq<Stroke>, context: Context)
    requires n <= |bindings|
    ensures var r := Scan(bindings, n, input, context);
            && (match r.exact
                case Some(b) =>
                  && b.index < n && b == Indexed(bindings, b.index) && IsExact(b, input, context)
                  && (forall i | b.index < i < n :: !IsExact(Indexed(bindings, i), input, context))
                case None => forall i | 0 <= i < n :: !IsExact(Indexed(bindings, i), input, context))
            && (r.hasPending <==> exists i | 0 <= i < n :: IsExtension(Indexed(bindings, i), input, context))
  {
    if n > 0 { ScanResolves(bindings, n - 1, input, context); }
  }

  /** The exact matches among the candidates, and whether any candidate goes further. */
  ghost predicate Filtered(candidates: seq<IndexedBinding>, input: seq<Stroke>, context: Context,
      exact: seq<IndexedBinding>, hasPending: bool) {
    && (forall b :: b in exact <==> b in candidates && IsExact(b, input, context))
    && (hasPending <==> exists b :: b in candidates && IsExtension(b, input, context))
  }

  method FilterCandidates(candidates: seq<IndexedBinding>, input: seq<Stroke>, context: Context)
      returns (exact: seq<IndexedBinding>, hasPending: bool)
    ensures Filtered(candidates, input, context, exact, hasPending)
  {
    exact, hasPending := [], false;
    for i := 0 to |candidates|
      invariant Filtered(candidates[..i], input, context, exact, hasPending)
    {
      assert candidates[..i + 1] == candidates[..i] + [candidates[i]];
      var b := candidates[i];
      if IsActive(b.binding, context) && Matches(b.parts, input) {
        if |b.parts| == |input| {
          exact := exact + [b];
        } else {
          assert IsExtension(b, input, context);
          hasPending := true;
        }
      }
    }
    assert candidates[..|candidates|] == candidates;
  }

  /** Filter the candidates of the first stroke, sort the exact ones, take the first: for every input
      that is not empty, the answer of the plain scan. */
  method ResolveKeybinding(index: Index, input: seq<Stroke>, context: Context, ghost bindings: seq<Binding>)
      returns (r: Resolution)
    requires IsIndex(index, bindings, |bindings|)
    ensures input == [] ==> r == Resolution(None, false)
    ensures input != [] ==> r == Scan(bindings, |bindings|, input, context)
  {
    var candidates := if input != [] && input[0] in index then index[input[0]] else [];
    var exact, hasPending := FilterCandidates(candidates, input, context);
    HeadIsLatest(exact);
    var sorted := ByIndexDescending(exact);
    r := Resolution(if sorted == [] then None else Some(sorted[0]), hasPending);
    if input != [] {
      ScanAgrees(index, bindings, input, context, candidates, exact, r);
      ScanResolves(bindings, |bindings|, input, context);
      ResolvesUniquely(bindings, input, context, r, Scan(bindings, |bindings|, input, context));
    }
  }

  /** Scanning the candidates is scanning everything. */
  lemma {:induction false} ScanAgrees(
    index: Index, bindings: seq<Binding>, input: seq<Stroke>, context: Context,
    candidates: seq<IndexedBinding>, exact: seq<IndexedBinding>, r: Resolution)
    requires IsIndex(index, bindings, |bindings|) && input != []
    requires candidates == if input[0] in index then index[input[0]] else []
    requires forall b :: b in exact <==> b in candidates && IsExact(b, input, context)
    requires if exact == [] then r.exact == None
             else r.exact.Some? && r.exact.value in exact && forall b | b in exact :: b.index <= r.exact.value.index
    requires r.hasPending <==> exists b :: b in candidates && IsExtension(b, input, context)
    ensures Resolves(bindings, input, context, r)
  {
    forall b: IndexedBinding
      ensures b in candidates <==>
              b.index < |bindings| && b == Indexed(bindings, b.index) && b.parts != [] && b.parts[0] == input[0]
    {
      Candidates(bindings, |bindings|, input[0], b);
    }
    forall i | 0 <= i < |bindings|
      ensures IsExact(Indexed(bindings, i), input, context) <==> Indexed(bindings, i) in exact
      ensures IsExtension(Indexed(bindings, i), input, context) ==> Indexed(bindings, i) in candidates
    {
      assert Indexed(bindings, i).index == i;
    }
    if r.hasPending {
      var b :| b in candidates && IsExtension(b, input, context);
      assert IsExtension(Indexed(bindings, b.index), input, context);
    }
  }

  // ---- The pending sequence ----

  /** What the workbench waits with: strokes typed so far, the command to run if nothing follows, and
      whether its timer is running. */
  datatype Waiting = Waiting(sequence: seq<Stroke>, command: Option<nat>, timer: bool)

  const IDLE := Waiting([], None, false)

  datatype KeyEvent = KeyEvent(stroke: Stroke, ignored: bool, plainTextInEditor: bool)

  function CommandOf(r: Resolution): Option<nat> {
    if r.exact.Some? then Some(r.exact.value.binding.command) else None
  }

  /** Take up `input` afresh: run an unambiguous match, wait on an ambiguous one. */
  function TakenUp(bindings: seq<Binding>, input: seq<Stroke>, context: Context): (Waiting, Option<nat>) {
    var r := Scan(bindings, |bindings|, input, context);
    if r.hasPending then (Waiting(input, CommandOf(r), true), None) else (IDLE, CommandOf(r))
  }

  /** A key press: the new state, and the command it runs. */
  function Pressed(w: Waiting, bindings: seq<Binding>, e: KeyEvent, context: Context): (Waiting, Option<nat>) {
    if e.ignored then (w, None)
    else if context.suppress then (IDLE, None)
    else if e.stroke == "" then (w, None)
    else if e.plainTextInEditor then (IDLE, None)
    else
      var input := w.sequence + [e.stroke];
      var r := Scan(bindings, |bindings|, input, context);
      if r.exact.Some? || r.hasPending then TakenUp(bindings, input, context)
      else if w.sequence == [] then (w, None)
      else TakenUp(bindings, [e.stroke], context)
  }

  function Expired(w: Waiting): (Waiting, Option<nat>) {
    if w.timer then (IDLE, w.command) else (w, None)
  }

  class WorkbenchKeys {
    const bindings: seq<Binding>
    const index: Index
    var pendingSequence: seq<Stroke>
    var pendingCommand: Option<nat>
    var timer: bool

    constructor (bindings: seq<Binding>)
      ensures this.bindings == bindings && Valid() && View() == IDLE
    {
      var made := CreateKeybindingIndex(bindings);
      this.bindings, index := bindings, made;
      pendingSequence, pendingCommand, timer := [], None, false;
    }

    ghost function View(): Waiting
      reads this
    {
      Waiting(pendingSequence, pendingCommand, timer)
    }

    ghost predicate Valid()
      reads this
    {
      IsIndex(index, bindings, |bindings|) && WaitingOk(bindings, View())
    }

    method ClearPending()
      modifies this
      ensures View() == IDLE
    {
      timer := false;
      pendingSequence := [];
      pendingCommand := None;
    }

    method SchedulePending(sequence: seq<Stroke>, deferred: Option<nat>)
      modifies this
      ensures View() == Waiting(sequence, deferred, true)
    {
      pendingSequence := sequence;
      pendingCommand := deferred;
      timer := true;
    }

    method HandleKeyDown(e: KeyEvent, context: Context) returns (run: Option<nat>)
      requires Valid()
      modifies this
      ensures Valid()
      ensures (View(), run) == Pressed(old(View()), bindings, e, context)
    {
      HappenedKeeps(bindings, View(), Key(e, context));
      if e.ignored {
        return None;
      }
      if context.suppress {
        ClearPending();
        return None;
      }
      if e.stroke == "" {
        return None;
      }
      if e.plainTextInEditor {
        ClearPending();
        return None;
      }
      var currentPending := pendingSequence;
      var input := if |currentPending| > 0 then currentPending + [e.stroke] else [e.stroke];
      assert input == currentPending + [e.stroke];
      var resolved := ResolveKeybinding(index, input, context, bindings);
      if resolved.exact.Some? && !resolved.hasPending {
        ClearPending();
        return CommandOf(resolved);
      }
      if resolved.hasPending {
        SchedulePending(input, CommandOf(resolved));
        return None;
      }
      if |currentPending| == 0 {
        return None;
      }
      ClearPending();
      var restarted := ResolveKeybinding(index, [e.stroke], context, bindings);
      if restarted.exact.Some? && !restarted.hasPending {
        return CommandOf(restarted);
      }
      if restarted.hasPending {
        SchedulePending([e.stroke], CommandOf(restarted));
      }
      return None;
    }

    method OnTimeout() returns (run: Option<nat>)
      requires Valid()
      modifies this
      ensures Valid()
      ensures (View(), run) == Expired(old(View()))
    {
      HappenedKeeps(bindings, View(), Timer);
      if !timer {
        return None;
      }
      var command := pendingCommand;
      ClearPending();
      return command;
    }
  }

  // ---- Runs ----

  /** `command` belongs to a binding of exactly the strokes `input`. */
  ghost predicate BoundTo(bindings: seq<Binding>, command: nat, input: seq<Stroke>) {
    exists i | 0 <= i < |bindings| :: Indexed(bindings, i).parts == input && bindings[i].command == command
  }

  /** The stored sequence is empty, or a binding goes strictly further; a stored command is bound to it. */
  ghost predicate WaitingOk(bindings: seq<Binding>, w: Waiting) {
    && (w.sequence == [] ==> w == IDLE) && (w.sequence != [] ==> w.timer)
    && (w.sequence != [] ==> exists i | 0 <= i < |bindings| :: w.sequence < Indexed(bindings, i).parts)
    && (w.command.Some? ==> BoundTo(bindings, w.command.value, w.sequence))
  }

  datatype Happening = Key(event: KeyEvent, context: Context) | Timer

  function Happened(w: Waiting, bindings: seq<Binding>, h: Happening): (Waiting, Option<nat>) {
    match h
    case Key(e, context) => Pressed(w, bindings, e, context)
    case Timer => Expired(w)
  }

  function RunKeys(bindings: seq<Binding>, happenings: seq<Happening>): Waiting {
    if happenings == [] then IDLE
    else Happened(RunKeys(bindings, happenings[..|happenings| - 1]), bindings, happenings[|happenings| - 1]).0
  }

  /** The strokes pressed so far. */
  function Typed(happenings: seq<Happening>): seq<Stroke> {
    if happenings == [] then []
    else
      var last := happenings[|happenings| - 1];
      Typed(happenings[..|happenings| - 1]) + if last.Key? && !last.event.ignored && last.event.stroke != "" then
        [last.event.stroke] else []
  }

  predicate EndsWith(s: seq<Stroke>, tail: seq<Stroke>) {
    |tail| <= |s| && s[|s| - |tail|..] == tail
  }

  lemma {:induction false} TakenUpOk(bindings: seq<Binding>, input: seq<Stroke>, context: Context)
    requires input != []
    ensures var (w, run) := TakenUp(bindings, input, context);
            && WaitingOk(bindings, w) && (w == IDLE || w.sequence == input)
            && (run.Some? ==> w == IDLE && BoundTo(bindings, run.value, input))
  {
    ScanResolves(bindings, |bindings|, input, context);
    var r := Scan(bindings, |bindings|, input, context);
    if r.exact.Some? {
      assert Indexed(bindings, r.exact.value.index).parts == input;
    }
    if r.hasPending {
      var i :| 0 <= i < |bindings| && IsExtension(Indexed(bindings, i), input, context);
      assert input < Indexed(bindings, i).parts;
    }
  }

  lemma {:induction false} HappenedOk(bindings: seq<Binding>, w: Waiting, h: Happening, typed: seq<Stroke>)
    requires WaitingOk(bindings, w) && EndsWith(typed, w.sequence)
    ensures var (w', run) := Happened(w, bindings, h);
            var typed' := typed + if h.Key? && !h.event.ignored && h.event.stroke != "" then [h.event.stroke] else [];
            && WaitingOk(bindings, w')
            && EndsWith(typed', w'.sequence)
            && (run.Some? ==> exists input :: EndsWith(typed', input) && BoundTo(bindings, run.value, input))
  {
    match h {
      case Timer =>
        assert typed + [] == typed;
      case Key(e, context) =>
        if !e.ignored && !context.suppress && e.stroke != "" && !e.plainTextInEditor {
          var input, typed' := w.sequence + [e.stroke], typed + [e.stroke];
          assert EndsWith(typed', input) && EndsWith(typed', [e.stroke]);
          TakenUpOk(bindings, input, context);
          TakenUpOk(bindings, [e.stroke], context);
        } else {
          assert typed + [] == typed;
        }
    }
  }

  /** The latest active binding of exactly these strokes. */
  ghost predicate IsLatest(bindings: seq<Binding>, input: seq<Stroke>, context: Context, i: nat) {
    && i < |bindings| && IsExact(Indexed(bindings, i), input, context)
    && forall j | i < j < |bindings| :: !IsExact(Indexed(bindings, j), input, context)
  }

  /** Some active binding goes strictly further. */
  ghost predicate GoesOn(bindings: seq<Binding>, input: seq<Stroke>, context: Context) {
    exists i | 0 <= i < |bindings| :: IsExtension(Indexed(bindings, i), input, context)
  }

  /** A suppressed context leaves only global bindings; a binding without a condition is otherwise active, and one
      with a condition when it holds. */
  lemma {:induction false} ActiveExactly(b: Binding, context: Context)
    ensures context.suppress && !b.isGlobal ==> !IsActive(b, context)
    ensures (!context.suppress || b.isGlobal) && b.when == None ==> IsActive(b, context)
    ensures (!context.suppress || b.isGlobal) && b.when.Some? ==>
            (IsActive(b, context) <==> context.holds(b.when.value))
  {}

  /** A key press with what was typed before it: an unambiguous match runs its latest binding at once and nothing
      waits; strokes that lead further wait, with the latest match deferred. If the strokes lead nowhere, the
      last one is taken on its own; alone it does nothing. */
  lemma {:induction false} PressExactly(bindings: seq<Binding>, w: Waiting, e: KeyEvent, context: Context)
    requires WaitingOk(bindings, w)
    requires !e.ignored && !context.suppress && e.stroke != "" && !e.plainTextInEditor
    ensures var input := w.sequence + [e.stroke];
            var (w', run) := Pressed(w, bindings, e, context);
            && (!GoesOn(bindings, input, context) ==>
                  forall i: nat | IsLatest(bindings, input, context, i) ::
                    w' == IDLE && run == Some(bindings[i].command))
            && (GoesOn(bindings, input, context) ==>
                  && w'.sequence == input && w'.timer && run == None
                  && (forall i: nat | IsLatest(bindings, input, context, i) :: w'.command == Some(bindings[i].command))
                  && (w'.command.Some? ==> exists i: nat :: IsLatest(bindings, input, context, i)))
            && (!GoesOn(bindings, input, context) && (forall i: nat :: !IsLatest(bindings, input, context, i)) ==>
                  if w.sequence == [] then w' == IDLE && run == None
                  else (w', run) == Pressed(IDLE, bindings, e, context))
  {
    var input := w.sequence + [e.stroke];
    ScanExactly(bindings, input, context);
    ScanExactly(bindings, [e.stroke], context);
    assert [] + [e.stroke] == [e.stroke];
  }

  lemma {:induction false} ScanExactly(bindings: seq<Binding>, input: seq<Stroke>, context: Context)
    ensures var r := Scan(bindings, |bindings|, input, context);
            && (r.hasPending <==> GoesOn(bindings, input, context))
            && (forall i: nat | IsLatest(bindings, input, context, i) :: CommandOf(r) == Some(bindings[i].command))
            && (r.exact.Some? ==> IsLatest(bindings, input, context, r.exact.value.index))
  {
    ScanResolves(bindings, |bindings|, input, context);
    var r := Scan(bindings, |bindings|, input, context);
    forall i: nat | IsLatest(bindings, input, context, i)
      ensures CommandOf(r) == Some(bindings[i].command)
    {
      if r.exact.Some? {
        assert !(r.exact.value.index < i) && !(i < r.exact.value.index);
      }
    }
  }

  /** Anything else that is pressed: an ignored event and an unreadable key change nothing, text typed in the
      editor and a suppressed context end the wait, and none of them runs a command. */
  lemma {:induction false} PressWithoutMatch(bindings: seq<Binding>, w: Waiting, e: KeyEvent, context: Context)
    ensures e.ignored ==> Pressed(w, bindings, e, context) == (w, None)
    ensures !e.ignored && context.suppress ==> Pressed(w, bindings, e, context) == (IDLE, None)
    ensures !e.ignored && !context.suppress && e.stroke == "" ==> Pressed(w, bindings, e, context) == (w, None)
    ensures !e.ignored && !context.suppress && e.stroke != "" && e.plainTextInEditor ==>
              Pressed(w, bindings, e, context) == (IDLE, None)
  {}

  /** When the time is up, the deferred command runs and nothing waits; without a wait nothing happens. */
  lemma {:induction false} ExpiryRuns(bindings: seq<Binding>, w: Waiting)
    requires WaitingOk(bindings, w)
    ensures Happened(w, bindings, Timer) == (IDLE, w.command)
  {}

  lemma {:induction false} HappenedKeeps(bindings: seq<Binding>, w: Waiting, h: Happening)
    requires WaitingOk(bindings, w)
    ensures WaitingOk(bindings, Happened(w, bindings, h).0)
  {
    HappenedOk(bindings, w, h, w.sequence);
  }

  /** In every run, over any contexts and timeouts: the stored sequence is empty or a strict prefix of
      some binding, and it is what was typed last. */
  lemma {:induction false} PendingIsPrefix(bindings: seq<Binding>, happenings: seq<Happening>)
    ensures WaitingOk(bindings, RunKeys(bindings, happenings))
    ensures EndsWith(Typed(happenings), RunKeys(bindings, happenings).sequence)
  {
    if happenings != [] {
      var init, last := happenings[..|happenings| - 1], happenings[|happenings| - 1];
      PendingIsPrefix(bindings, init);
      HappenedOk(bindings, RunKeys(bindings, init), last, Typed(init));
      assert Typed(init) + [] == Typed(init);
    }
  }

  /** Every command run in any run is bound to exactly the strokes last typed. */
  lemma {:induction false} CommandsWereTyped(bindings: seq<Binding>, happenings: seq<Happening>, h: Happening)
    ensures var run := Happened(RunKeys(bindings, happenings), bindings, h).1;
            run.Some? ==> exists input ::
              EndsWith(Typed(happenings + [h]), input) && BoundTo(bindings, run.value, input)
  {
    PendingIsPrefix(bindings, happenings);
    HappenedOk(bindings, RunKeys(bindings, happenings), h, Typed(happenings));
    assert (happenings + [h])[..|happenings|] == happenings;
  }
}
