/** One minion: the backing file of concrete/src/FileManager.cpp and the two commands
    of concrete/src/MinionCommands.cpp that answer through MasterProxy.cpp. */
module Minion {
  import opened Types
  import opened Codec

  /** `length` bytes nobody promises anything about. */
  function Noise(noise: seq<Byte>, length: nat): (r: seq<Byte>)
    ensures |r| == length
  {
    if |noise| == length then noise else Zeros(length)
  }

  /** The file after a request. `good` is the state of the stream after the
      operation; a write that fails may have left anything in its range. */
  function CellsAfter(cells: seq<Byte>, m: Message, good: bool, noise: seq<Byte>): (r: seq<Byte>)
    ensures |r| == |cells|
  {
    match m
    case WriteSend(_, offset, length, data) =>
      if offset + length > |cells| then cells
      else Overlay(cells, offset, if good && |data| >= length then data[..length] else Noise(noise, length))
    case _ => cells
  }

  /** The answer to a request, as far as the minion has one. */
  function AnswerTo(cells: seq<Byte>, m: Message, good: bool, noise: seq<Byte>): Option<Message>
  {
    match m
    case ReadSend(uid, offset, length) =>
      if good && offset + length <= |cells| then
        Some(ReadReceive(uid, true, length, cells[offset..offset + length]))
      else Some(ReadReceive(uid, false, length, Noise(noise, length)))
    case WriteSend(uid, offset, length, data) =>
      Some(WriteReceive(uid, good && offset + length <= |cells|))
    case _ => None
  }

  class FileManager {
    var cells: array<Byte>

    /** A new file of `size` zero bytes. */
    constructor (size: nat)
      ensures fresh(cells) && cells[..] == Zeros(size)
    {
      cells := new Byte[size](_ => 0);
    }

    method ReadFromFile(offset: nat, length: nat, good: bool, noise: seq<Byte>)
      returns (result: bool, buffer: seq<Byte>)
      ensures result <==> good && offset + length <= cells.Length
      ensures |buffer| == length
      ensures result ==> buffer == cells[offset..offset + length]
      ensures !result ==> buffer == Noise(noise, length)
    {
      result := good && offset + length <= cells.Length;
      if result {
        buffer := cells[offset..offset + length];
      } else {
        buffer := Noise(noise, length);
      }
    }

    method WriteToFile(offset: nat, length: nat, data: seq<Byte>, good: bool, noise: seq<Byte>)
      returns (result: bool)
      requires |data| >= length
      modifies cells
      ensures result <==> good && offset + length <= cells.Length
      ensures result ==> cells[..] == Overlay(old(cells[..]), offset, data[..length])
      ensures !result && offset + length <= cells.Length ==>
        cells[..] == Overlay(old(cells[..]), offset, Noise(noise, length))
      ensures offset + length > cells.Length ==> cells[..] == old(cells[..])
    {
      result := good && offset + length <= cells.Length;
      if offset + length <= cells.Length {
        var bytes := if good then data[..length] else Noise(noise, length);
        for k := 0 to length
          invariant forall j | 0 <= j < cells.Length ::
            cells[j] == if offset <= j < offset + k then bytes[j - offset] else old(cells[j])
        {
          cells[offset + k] := bytes[k];
        }
      }
    }

    /** `MinionReadCommand::Run` and `MinionWriteCommand::Run`: apply, then answer. */
    method RunCommand(m: Message, good: bool, noise: seq<Byte>) returns (answer: Option<Message>)
      requires m.WriteSend? ==> |m.data| >= m.length
      modifies cells
      ensures cells[..] == CellsAfter(old(cells[..]), m, good, noise)
      ensures answer == AnswerTo(old(cells[..]), m, good, noise)
    {
      match m {
        case ReadSend(uid, offset, length) =>
          var result, buffer := ReadFromFile(offset, length, good, noise);
          answer := Some(ReadReceive(uid, result, length, buffer));
        case WriteSend(uid, offset, length, data) =>
          var result := WriteToFile(offset, length, data, good, noise);
          answer := Some(WriteReceive(uid, result));
        case _ =>
          answer := None;
      }
    }
  }
}
