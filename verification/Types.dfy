/** Values shared by every component of the drive. */
module Types {
  /** One byte of payload, of a packet or of a minion file. */
  type Byte = b: int | 0 <= b < 256

  datatype Option<+T> = None | Some(value: T)

  /** The two kinds of request the kernel sends (`TicketOp`). */
  datatype Op = Read | Write

  /** Which of the two minions of a segment answered (`MirrorRole`). */
  datatype Role = Primary | Backup

  /** `seq` of bytes with `data` laid over it from position `at` on. */
  function Overlay(cells: seq<Byte>, at: nat, data: seq<Byte>): (r: seq<Byte>)
    requires at + |data| <= |cells|
    ensures |r| == |cells|
    ensures forall k | 0 <= k < |r| :: r[k] == if at <= k < at + |data| then data[k - at] else cells[k]
  {
    cells[..at] + data + cells[at + |data|..]
  }

  function Zeros(n: nat): (r: seq<Byte>)
    ensures |r| == n && forall k | 0 <= k < n :: r[k] == 0
  {
    seq(n, _ => 0)
  }
}
