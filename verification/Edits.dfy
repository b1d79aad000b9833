/** The edit vocabulary shared by the browser, the gateway and the proxy client. */
module Edits {
  import opened Unicode

  datatype Result<+T, +E> = Ok(value: T) | Err(error: E) {
    predicate IsFailure() { Err? }

    function PropagateFailure<U>(): Result<U, E>
      requires Err?
    {
      Err(error)
    }

    function Extract(): T
      requires Ok?
    {
      value
    }
  }

  datatype EditError =
    | OffsetSplitsPair
    | OffsetOutside
    | LengthOverflow
    | LineOutside
    | CharacterSplitsPair
    | CharacterOutside
    | PositionMismatch
    | StartAfterEnd
    | SeqNotIncreasing(number: nat, previous: nat)
    | UnexpectedLength(expected: nat, got: nat)

  type Edit<+T> = Result<T, EditError>

  type Path = string

  /** One replacement: its range twice, as positions and as a UTF-16 offset and length. */
  datatype Change = Change(start: Position, end: Position, offset: nat, length: nat, text: Text)

  datatype Source = User | Ai

  /** A numbered group of changes, applied one after another. */
  datatype Batch = Batch(number: nat, source: Source, changes: seq<Change>)

  datatype Option<+T> = None | Some(value: T) {
    function GetOr(default: T): T {
      match this
      case Some(v) => v
      case None => default
    }
  }

  datatype ClockEntry = ClockEntry(replicaId: nat, timestamp: nat)

  type Clock = seq<ClockEntry>

  /** A range of bytes. */
  datatype Range = Range(start: nat, end: nat)

  /** What the proxy is sent: ranges and new texts, under the clock they were made at. */
  datatype Operation =
    | EditOperation(replicaId: nat, lamport: nat, version: Clock, ranges: seq<Range>, newText: seq<Text>)
    | OtherOperation

  /** What a save compares to see whether the remote text moved: a length and digest of the text over
      SSH, a vector clock with the proxy. The unknown version stands for the markers that equal neither. */
  datatype ResourceVersion =
    | UnknownVersion
    | SshStat(length: nat, digest: nat)
    | ZedVectorClock(entries: seq<ClockEntry>)

  /** Largest value of the gateway's `usize`. */
  const USIZE_MAX: nat := 0xFFFF_FFFF_FFFF_FFFF
}
