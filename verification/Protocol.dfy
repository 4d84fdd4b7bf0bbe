/** Compact BITS values shared by both endpoints: messages, geometry and sequence arithmetic. */
module Protocol {
  import opened Integers

  type byte = u8

  const WINDOW: nat := 16
  const SETUP_SIZE: nat := 10
  const SEGMENT_HEADER_SIZE: nat := 4
  const ACK_SIZE: nat := 6
  const PROBE_SIZE: nat := 2
  const ABORT_SIZE: nat := 2
  const MAXIMUM_SEGMENT_COUNT: nat := 65536

  datatype Setup = Setup(
    sessionId: u8, initialSequence: u8, finalIndex: u16, segmentSize: u16, finalSize: u16)
  {
    function SegmentCount(): nat { finalIndex + 1 }

    /** The offset of a segment in the object, one full segment after the one before it. */
    function OffsetOf(index: nat): nat { if index == 0 then 0 else OffsetOf(index - 1) + segmentSize }

    lemma {:induction false} OffsetIs(index: nat)
      ensures OffsetOf(index) == index * segmentSize
    {
      if index > 0 { OffsetIs(index - 1); }
    }

    function SizeOf(index: nat): nat {
      if index == finalIndex then finalSize else segmentSize
    }

    /** Where the last segment ends. */
    function TotalSize(): nat { OffsetOf(finalIndex) + finalSize }

    /** The size as it is computed, in one product. */
    method ComputeTotalSize() returns (size: nat)
      ensures size == TotalSize()
    {
      OffsetIs(finalIndex);
      size := finalIndex * segmentSize + finalSize;
    }
  }

  const NO_SETUP := Setup(0, 0, 0, 0, 0)

  datatype RejectReason =
    | UnsupportedVersion | UnsupportedProfile | UnsupportedSegmentSize
    | ObjectTooLarge | RejectBusy | InvalidArgument | InternalError

  datatype MessageType =
    SetupType | SegmentType | AckType | ProbeType | RejectType | DatagramType | AbortType

  datatype Option<+T> = None | Some(value: T)

  /**
   * A received PDU after the length and reserved-field checks of the codec. BadSetup is a SETUP
   * control byte before a body that is not a SETUP (its session byte, when there is one, is still
   * answered); BadBody is any other known type with a wrong body; BadControl has no known type.
   */
  datatype Message =
    | SetupMsg(setup: Setup)
    | SegmentMsg(sessionId: u8, index: u16, payload: seq<byte>)
    | AckMsg(sessionId: u8, bitmap: u16, maxSequence: u8, base: u8)
    | ProbeMsg(sessionId: u8)
    | RejectMsg(sessionId: u8, reason: RejectReason)
    | AbortMsg(sessionId: u8)
    | DatagramMsg(payload: seq<byte>)
    | BadSetup(session: Option<u8>)
    | BadBody(kind: MessageType)
    | BadControl

  datatype TransferState = Idle | Starting | Active | Completed | Rejected | Aborted | Error
  datatype ProcessResult = IsIdle | Progress | Failure | Blocked
  datatype ReceiveResult = ReceiveAccepted | ReceiveFull | ReceiveRejected
  datatype SendResult = Sent | TooLarge | NoRoute | InvalidState | Full | SendRejected | Partial

  /** The wrapping sequence number of an absolute segment index. */
  function SequenceFor(setup: Setup, index: nat): u8 {
    (setup.initialSequence + index % 0x100) % 0x100
  }

  /** The sequence number just before the first segment not yet counted. */
  function BaseSequence(setup: Setup, count: nat): u8 {
    if count == 0 then (setup.initialSequence - 1) % 0x100 else SequenceFor(setup, count - 1)
  }

  /** An 8-bit subtraction. */
  function Minus8(a: u8, b: u8): u8 { if a >= b then a - b else a + 0x100 - b }

  /** Time passed on a wrapping 32-bit millisecond clock. */
  function Since(now: u32, start: u32): u32 { if now >= start then now - start else now + 0x1_0000_0000 - start }

  function Min(a: nat, b: nat): nat { if a < b then a else b }

  /** The members of s in [base, base + span), counted from base. */
  ghost function Offsets(s: set<nat>, base: nat, span: nat): set<nat> {
    set o | o in UpTo(span) && base + o in s
  }

  /** Both forms of the base are the initial sequence plus the count less one, wrapped. */
  lemma BaseIs(setup: Setup, count: nat)
    ensures BaseSequence(setup, count) == (setup.initialSequence + count - 1) % 0x100
  {}
}
