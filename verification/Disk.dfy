/** The disk under one table: the log file, how much of it is durable, and the table files by id. */
module Disk {
  import opened Bytes

  datatype Image = Image(wal: bytes, synced: nat, files: map<nat, bytes>) {
    ghost predicate Valid() {
      synced <= |wal|
    }
  }

  /** One effect on the disk. Truncating and clearing the log fsync before they return. */
  datatype DiskOp =
    | Append(data: bytes)
    | Sync
    | Truncate(len: nat)
    | Clear
    | WriteFile(id: nat, data: bytes)
    | RemoveFile(id: nat)

  function Apply(im: Image, op: DiskOp): (r: Image)
    ensures im.Valid() ==> r.Valid()
  {
    match op
    case Append(data) => im.(wal := im.wal + data)
    case Sync => im.(synced := |im.wal|)
    case Truncate(len) => if len <= |im.wal| then im.(wal := im.wal[..len], synced := len) else im
    case Clear => im.(wal := [], synced := 0)
    case WriteFile(id, data) => im.(files := im.files[id := data])
    case RemoveFile(id) => im.(files := im.files - {id})
  }

  function ApplyAll(im: Image, ops: seq<DiskOp>): (r: Image)
    ensures im.Valid() ==> r.Valid()
  {
    if ops == [] then im else Apply(ApplyAll(im, ops[..|ops| - 1]), ops[|ops| - 1])
  }

  lemma {:induction false} ApplyAllConcat(im: Image, a: seq<DiskOp>, b: seq<DiskOp>)
    ensures ApplyAll(im, a + b) == ApplyAll(ApplyAll(im, a), b)
  {
    hide Apply;
    if b == [] {
      assert a + b == a;
    } else {
      var n := |b| - 1;
      assert (a + b)[..|a + b| - 1] == a + b[..n];
      ApplyAllConcat(im, a, b[..n]);
    }
  }

  lemma ApplyOne(im: Image, op: DiskOp)
    ensures ApplyAll(im, [op]) == Apply(im, op) && ApplyAll(im, []) == im
  {
    assert [op][..0] == [];
  }

  /** Losing power keeps every table file and some prefix of the log no shorter than what was synced. */
  function Crash(im: Image, cut: nat): Image
    requires im.synced <= cut <= |im.wal|
  {
    Image(im.wal[..cut], cut, im.files)
  }

  class Device {
    var image: Image
    /** Files whose removal fails; the code ignores such failures. */
    var stuck: set<nat>
    /** Every effect since the device was set up, oldest first. */
    ghost var history: seq<DiskOp>

    constructor (image: Image, stuck: set<nat>)
      ensures this.image == image && this.stuck == stuck && history == []
    {
      this.image, this.stuck, history := image, stuck, [];
    }

    method Do(op: DiskOp)
      requires !op.RemoveFile?
      modifies this
      ensures image == Apply(old(image), op) && history == old(history) + [op] && stuck == old(stuck)
    {
      image := Apply(image, op);
      history := history + [op];
    }

    /** Removes the file, or silently does not. */
    method Remove(id: nat)
      modifies this
      ensures stuck == old(stuck)
      ensures id in stuck ==> image == old(image) && history == old(history)
      ensures id !in stuck ==> image == Apply(old(image), RemoveFile(id)) && history == old(history) + [RemoveFile(id)]
    {
      if id !in stuck {
        image := Apply(image, RemoveFile(id));
        history := history + [RemoveFile(id)];
      }
    }
  }
}
