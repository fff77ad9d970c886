/** The two files of a runtime download, the partial one and the finished one, and the steps that
    change them. Every step may fail; `faults` counts the failures. */
module PackageFiles {
  import opened Wrappers
  import opened Text

  const MAX_U64: nat := 0xFFFF_FFFF_FFFF_FFFF

  newtype Byte = x: int | 0 <= x < 256

  type Bytes = seq<Byte>

  /** `NotFile` is anything but a regular file, a symbolic link say. */
  datatype Entry = File(bytes: Bytes) | NotFile

  datatype Disk = Disk(partial: Option<Entry>, target: Option<Entry>)

  predicate IsPrefix(a: Bytes, b: Bytes) {
    |a| <= |b| && a == b[..|a|]
  }

  /** The concatenation of the pieces. */
  function Flatten(pieces: seq<Bytes>): Bytes {
    if pieces == [] then [] else Flatten(pieces[..|pieces| - 1]) + pieces[|pieces| - 1]
  }

  lemma {:induction false} FlattenPrefix(pieces: seq<Bytes>, i: nat)
    requires i <= |pieces|
    ensures IsPrefix(Flatten(pieces[..i]), Flatten(pieces))
  {
    if i == |pieces| {
      assert pieces[..i] == pieces;
    } else {
      assert pieces[..|pieces| - 1][..i] == pieces[..i];
      FlattenPrefix(pieces[..|pieces| - 1], i);
    }
  }

  /** A cancellation that another thread may request at any time and nobody takes back. */
  class CancelFlag {
    var requested: bool

    constructor ()
    {
      requested := false;
    }

    method Poll() returns (cancelled: bool)
      modifies this
      ensures cancelled == requested
      ensures old(requested) ==> requested
    {
      var now: bool := *;
      requested := requested || now;
      cancelled := requested;
    }
  }

  class PackageFiles {
    var partial: Option<Entry>
    var target: Option<Entry>
    ghost var faults: nat

    function Contents(): Disk
      reads this
    {
      Disk.Disk(partial, target)
    }

    constructor (partial: Option<Entry>, target: Option<Entry>)
      ensures Contents() == Disk(partial, target) && faults == 0
    {
      this.partial, this.target, faults := partial, target, 0;
    }

    /** A step that changes nothing: inspecting, opening, flushing or syncing a file. */
    method Visit() returns (ok: bool)
      modifies this`faults
      ensures faults == old(faults) + if ok then 0 else 1
    {
      ok := *;
      if !ok {
        faults := faults + 1;
      }
    }

    method RemovePartial() returns (ok: bool)
      modifies this`partial, this`faults
      ensures partial == if ok then None else old(partial)
      ensures faults == old(faults) + if ok then 0 else 1
    {
      ok := *;
      ok := ok || partial == None;
      if ok {
        partial := None;
      } else {
        faults := faults + 1;
      }
    }

    method RemoveTarget() returns (ok: bool)
      modifies this`target, this`faults
      ensures target == if ok then None else old(target)
      ensures faults == old(faults) + if ok then 0 else 1
    {
      ok := *;
      ok := ok || target == None;
      if ok {
        target := None;
      } else {
        faults := faults + 1;
      }
    }

    /** An empty partial file in place of the old one. */
    method CreatePartial() returns (ok: bool)
      modifies this`partial, this`faults
      ensures partial == if ok then Some(File([])) else old(partial)
      ensures faults == old(faults) + if ok then 0 else 1
    {
      ok := *;
      if ok {
        partial := Some(File([]));
      } else {
        faults := faults + 1;
      }
    }

    /** Appends to the partial file. A failure can leave any beginning of the piece written. */
    method Append(piece: Bytes) returns (ok: bool, ghost written: nat)
      requires partial.Some? && partial.value.File?
      modifies this`partial, this`faults
      ensures written <= |piece| && (ok ==> written == |piece|)
      ensures partial == Some(File(old(partial).value.bytes + piece[..written]))
      ensures faults == old(faults) + if ok then 0 else 1
    {
      ok := *;
      if ok {
        written := |piece|;
        assert piece == piece[..|piece|];
        partial := Some(File(partial.value.bytes + piece));
      } else {
        faults := faults + 1;
        var n: int := *;
        n := if 0 <= n <= |piece| then n else 0;
        written := n;
        partial := Some(File(partial.value.bytes + piece[..n]));
      }
    }

    /** The partial file becomes the finished one in one step. */
    method Finalize() returns (ok: bool)
      requires partial.Some?
      modifies this
      ensures Contents() == if ok then Disk(None, old(partial)) else old(Contents())
      ensures faults == old(faults) + if ok then 0 else 1
    {
      ok := *;
      if ok {
        partial, target := None, partial;
      } else {
        faults := faults + 1;
      }
    }
  }
}
