/** The block device and its undo log. */
module DiskModel {
  import opened Ufs

  datatype UndoRecord = UndoRecord(blockNumber: int, blockData: Block)

  ghost predicate LogFits(log: seq<UndoRecord>, size: nat) {
    forall i :: 0 <= i < |log| ==> 0 <= log[i].blockNumber < size
  }

  /** The image after the records of `log` are written front to back. */
  ghost function Replay(log: seq<UndoRecord>, image: seq<Block>): (result: seq<Block>)
    requires LogFits(log, |image|)
    ensures |result| == |image|
  {
    if log == [] then image
    else Replay(log[1..], image[log[0].blockNumber := log[0].blockData])
  }

  datatype BlockWrite = BlockWrite(blockNumber: int, data: Block)

  ghost predicate WritesFit(writes: seq<BlockWrite>, size: nat) {
    forall i :: 0 <= i < |writes| ==> 0 <= writes[i].blockNumber < size
  }

  /** The image after `writes`, in order. */
  ghost function Written(writes: seq<BlockWrite>, image: seq<Block>): (result: seq<Block>)
    requires WritesFit(writes, |image|)
    ensures |result| == |image|
  {
    if writes == [] then image
    else Written(writes[1..], image[writes[0].blockNumber := writes[0].data])
  }

  /** The log after `writes`, starting from `log`: each write pushes the overwritten block to the front. */
  ghost function Logged(writes: seq<BlockWrite>, image: seq<Block>, log: seq<UndoRecord>): (result: seq<UndoRecord>)
    requires WritesFit(writes, |image|) && LogFits(log, |image|)
    ensures LogFits(result, |image|)
  {
    if writes == [] then log
    else
      var n := writes[0].blockNumber;
      Logged(writes[1..], image[n := writes[0].data], [UndoRecord(n, image[n])] + log)
  }

  /** Whatever blocks a transaction writes, and however often it writes each of them, replaying
      its log over the resulting image gives what the log undid before the writes. */
  lemma {:induction false} UndoRestores(writes: seq<BlockWrite>, image: seq<Block>, log: seq<UndoRecord>)
    requires WritesFit(writes, |image|) && LogFits(log, |image|)
    ensures Replay(Logged(writes, image, log), Written(writes, image)) == Replay(log, image)
  {
    if writes != [] {
      var n := writes[0].blockNumber;
      var record := UndoRecord(n, image[n]);
      var image' := image[n := writes[0].data];
      UndoRestores(writes[1..], image', [record] + log);
      assert ([record] + log)[1..] == log;
      assert image'[n := image[n]] == image;
    }
  }

  /** A block that no write names keeps its data. */
  lemma {:induction false} UnwrittenStays(writes: seq<BlockWrite>, image: seq<Block>, n: int)
    requires WritesFit(writes, |image|) && 0 <= n < |image|
    requires forall i :: 0 <= i < |writes| ==> writes[i].blockNumber != n
    ensures Written(writes, image)[n] == image[n]
  {
    if writes != [] {
      UnwrittenStays(writes[1..], image[writes[0].blockNumber := writes[0].data], n);
    }
  }

  /** A committed transaction keeps the last write to every block it wrote. */
  lemma {:induction false} LastWriteStays(writes: seq<BlockWrite>, image: seq<Block>, last: int)
    requires WritesFit(writes, |image|) && 0 <= last < |writes|
    requires forall i :: last < i < |writes| ==> writes[i].blockNumber != writes[last].blockNumber
    ensures Written(writes, image)[writes[last].blockNumber] == writes[last].data
  {
    var image' := image[writes[0].blockNumber := writes[0].data];
    if last == 0 {
      UnwrittenStays(writes[1..], image', writes[0].blockNumber);
    } else {
      LastWriteStays(writes[1..], image', last - 1);
    }
  }

  /** The image file as an array of blocks, with the log that `rollback` replays. */
  class Disk {
    var image: seq<Block>
    var isInTransaction: bool
    var undoLog: seq<UndoRecord>

    ghost predicate Valid()
      reads this
    {
      && LogFits(undoLog, |image|)
      && (!isInTransaction ==> undoLog == [])
    }

    /** The image that a rollback would restore. */
    ghost function Base(): seq<Block>
      requires Valid()
      reads this
    {
      Replay(undoLog, image)
    }

    constructor (image: seq<Block>)
      ensures Valid()
      ensures this.image == image && !isInTransaction
    {
      this.image := image;
      this.isInTransaction := false;
      this.undoLog := [];
    }

    method ReadBlock(blockNumber: int) returns (buffer: Block)
      requires 0 <= blockNumber < |image|
      ensures buffer == image[blockNumber]
    {
      buffer := image[blockNumber];
    }

    method WriteBlock(blockNumber: int, buffer: Block)
      requires Valid()
      requires 0 <= blockNumber < |image|
      modifies this
      ensures Valid()
      ensures image == old(image)[blockNumber := buffer]
      ensures isInTransaction == old(isInTransaction)
      ensures isInTransaction ==> undoLog == old(Logged([BlockWrite(blockNumber, buffer)], image, undoLog))
      ensures isInTransaction ==> Base() == old(Base())
    {
      if isInTransaction {
        var saved := ReadBlock(blockNumber);
        undoLog := [UndoRecord(blockNumber, saved)] + undoLog;
      }
      image := image[blockNumber := buffer];
      UndoRestores([BlockWrite(blockNumber, buffer)], old(image), old(undoLog));
    }

    method BeginTransaction()
      requires Valid()
      requires !isInTransaction
      modifies this
      ensures Valid()
      ensures isInTransaction && image == old(image) && Base() == old(image)
    {
      isInTransaction := true;
    }

    method Commit()
      requires Valid()
      modifies this
      ensures Valid()
      ensures !isInTransaction && image == old(image)
    {
      isInTransaction := false;
      undoLog := [];
    }

    method Rollback()
      requires Valid()
      modifies this
      ensures Valid()
      ensures !isInTransaction && image == old(Base())
    {
      isInTransaction := false;
      var log := undoLog;
      undoLog := [];
      var i := 0;
      while i < |log|
        invariant 0 <= i <= |log|
        invariant Valid() && !isInTransaction
        invariant |image| == |old(image)|
        invariant Replay(log[i..], image) == old(Base())
      {
        WriteBlock(log[i].blockNumber, log[i].blockData);
        assert log[i..][1..] == log[i + 1..];
        i := i + 1;
      }
    }
  }
}
