/** The approval evidence of `scripts/offline_rescore_stage12.py`: two audit files
    that must be on disk, exact and synced, before an apply that passed the review
    gate may start. */
module ApprovalEvidence {
  import ReviewGate
  import opened Wrappers

  type Path = string
  type Bytes = seq<bv8>

  /** `synced`: the present content survives a crash of the machine. */
  datatype Inode = Inode(regular: bool, links: nat, bytes: Bytes, synced: bool)

  /** What befalls one system call. A failing or dying write has written `partial` bytes. */
  datatype Step = Proceed | Fail(partial: nat) | Die(partial: nat)

  /** `calls` per system call; `chunk` the size of each short read; `swap` another
      file that a third party puts at the path between `lstat` and `open`. */
  datatype Weather = Weather(calls: nat -> Step, chunk: nat -> nat, swap: Option<nat>)

  datatype Ending = Done | Refused | Died

  function Broken(step: Step): Ending {
    match step
    case Proceed => Done
    case Fail(_) => Refused
    case Die(_) => Died
  }

  function Min(a: nat, b: nat): nat {
    if a < b then a else b
  }

  /** An approved review: the exact bytes of the file, and the preview it is for. */
  datatype Approval = Approval(data: Bytes, provenance: string, source: Path)

  /** `approval_audit_paths`, the manifest text, and `_paths_alias`: any functions. */
  datatype Naming = Naming(
    csv: Approval -> Path, manifest: Approval -> Path, manifestBytes: Approval -> Bytes, alias: (Path, Path) -> bool)

  /** What the gate holds the submitted bytes against: the export of the present
      preview. Decoding and case conversion are any functions. */
  datatype Gate = Gate(
    upper: string -> string, decode: Bytes -> Option<ReviewGate.CsvFile>, expected: seq<ReviewGate.ExpectedRow>)

  /** The bytes are a permutation of the export with every row approved. */
  ghost predicate Passes(gate: Gate, data: Bytes) {
    ReviewGate.Approved(gate.upper, gate.decode(data), gate.expected)
  }

  /** One `--apply` run: its gate, and the bytes submitted to it. */
  datatype Request = Request(gate: Gate, approval: Approval)

  datatype Occasion = Attempt(request: Request, first: Weather, second: Weather) | Crash(left: nat -> Option<Bytes>)

  /** No call fails and nobody interferes. */
  ghost predicate Undisturbed(w: Weather) {
    w.swap.None? && forall k :: w.calls(k) == Proceed
  }

  class FileSystem {
    var entries: map<Path, nat>
    var inodes: map<nat, Inode>
    /** What every apply that was started relies on; third parties leave these files alone. */
    var evidence: map<Path, Bytes>
    /** Every successful `fsync`, in order. */
    ghost var syncs: seq<nat>

    ghost predicate Holds(path: Path, data: Bytes)
      reads this
    {
      && path in entries && entries[path] in inodes
      && var file := inodes[entries[path]];
         file.regular && file.bytes == data && file.synced
    }

    /** The path names a regular file with one link that holds exactly these bytes. */
    ghost predicate Intact(path: Path, data: Bytes)
      reads this
    {
      && path in entries && entries[path] in inodes
      && var file := inodes[entries[path]];
         file.regular && file.links == 1 && file.bytes == data
    }

    /** An audit file may be written there, or is there already. */
    ghost predicate Available(path: Path, data: Bytes)
      reads this
    {
      path !in entries || Intact(path, data)
    }

    ghost predicate Valid()
      reads this
    {
      && (forall path :: path in entries ==> entries[path] in inodes)
      && (forall path :: path in evidence ==> Holds(path, evidence[path]))
    }

    constructor (entries: map<Path, nat>, inodes: map<nat, Inode>)
      requires forall path :: path in entries ==> entries[path] in inodes
      ensures Valid() && evidence == map[] && this.entries == entries && this.inodes == inodes
    {
      this.entries, this.inodes, this.evidence, this.syncs := entries, inodes, map[], [];
    }

    /** No file that existed has other content or other attributes; at most it got synced. */
    twostate predicate NothingRewritten()
      reads this
    {
      forall n :: n in old(inodes) ==>
        && n in inodes && inodes[n].regular == old(inodes)[n].regular && inodes[n].links == old(inodes)[n].links
        && inodes[n].bytes == old(inodes)[n].bytes && (old(inodes)[n].synced ==> inodes[n].synced)
    }

    /** Names that existed still name the same file, `path` perhaps apart. */
    twostate predicate NamesKept(path: Path)
      reads this
    {
      forall p :: p in old(entries) && p != path ==> p in entries && entries[p] == old(entries)[p]
    }

    /** Every other path names the same file as before, with the same kind, links and
        content, or still names none. */
    twostate predicate OthersAsBefore(path: Path)
      reads this
    {
      forall p :: p != path ==>
        && (p in entries <==> p in old(entries))
        && (p in entries ==> entries[p] == old(entries)[p])
    }

    /** The file at `path` was synced since the method was called. */
    twostate predicate JustSynced(path: Path)
      reads this
    {
      && path in entries && old(syncs) <= syncs
      && exists k :: |old(syncs)| <= k < |syncs| && syncs[k] == entries[path]
    }

    method FreshInode() returns (n: nat)
      ensures n !in inodes
    {
      n := 0;
      var rest := inodes.Keys;
      while n in rest
        decreases |rest|
        invariant rest <= inodes.Keys
        invariant forall m :: m in inodes && m !in rest ==> m < n
      {
        rest := rest - {n};
        n := n + 1;
      }
    }

    /** Reads until `limit` bytes or the end of the file, in chunks of any size. */
    method ReadAtMost(bytes: Bytes, limit: nat, chunk: nat -> nat) returns (read: Bytes)
      ensures read == bytes[..Min(|bytes|, limit)]
    {
      read := [];
      var remaining := limit;
      var k := 0;
      while remaining > 0 && |read| < |bytes|
        invariant |read| <= |bytes| && |read| + remaining == limit
        invariant read == bytes[..|read|]
        decreases |bytes| - |read|
      {
        var size := Min(chunk(k) + 1, Min(remaining, |bytes| - |read|));
        var next := |read| + size;
        assert bytes[..|read|] + bytes[|read|..next] == bytes[..next];
        read := read + bytes[|read|..next];
        remaining := remaining - size;
        k := k + 1;
      }
    }

    /** Open the path, insist on the very file `lstat` saw, compare it and sync it. */
    method SyncHandle(path: Path, before: nat, data: Bytes, w: Weather) returns (ending: Ending)
      requires Valid() && path in entries
      modifies this`inodes, this`syncs
      ensures Valid() && old(syncs) <= syncs && NothingRewritten()
      ensures ending == Done ==> Holds(path, data) && JustSynced(path) && entries[path] == before
      ensures ending == Done <==>
        w.calls(4) == Proceed && w.calls(5) == Proceed && entries[path] == before && old(Intact(path, data))
    {
      if w.calls(4) != Proceed {
        return Broken(w.calls(4));
      }
      var handle := entries[path];
      if !inodes[handle].regular || inodes[handle].links != 1 || handle != before {
        return Refused;
      }
      var content := ReadAtMost(inodes[handle].bytes, |data| + 1, w.chunk);
      if content != data {
        return Refused;
      }
      if w.calls(5) != Proceed {
        return Broken(w.calls(5));
      }
      inodes := inodes[handle := inodes[handle].(synced := true)];
      syncs := syncs + [handle];
      assert syncs[|syncs| - 1] == entries[path];
      return Done;
    }

    /** `_sync_existing_artifact` */
    method SyncExisting(path: Path, data: Bytes, w: Weather) returns (ending: Ending)
      requires Valid() && path in entries
      modifies this`entries, this`inodes, this`syncs
      ensures Valid() && old(syncs) <= syncs && NothingRewritten() && NamesKept(path)
      ensures path in old(evidence) || w.swap.None? ==> entries == old(entries)
      ensures ending == Done ==> Holds(path, data) && JustSynced(path) && entries[path] == old(entries)[path]
      ensures ending == Done <==>
        && w.calls(3) == Proceed && w.calls(4) == Proceed && w.calls(5) == Proceed
        && path in entries && entries[path] == old(entries)[path] && old(Intact(path, data))
    {
      if w.calls(3) != Proceed {
        return Broken(w.calls(3));
      }
      var before := entries[path];
      if !inodes[before].regular {
        return Refused;
      }
      if w.swap.Some? && w.swap.value in inodes && path !in evidence {
        entries := entries[path := w.swap.value];
      }
      ending := SyncHandle(path, before, data, w);
    }

    /** Create the file, write all of it, sync it; a failure leaves what was written. */
    method WriteNew(path: Path, data: Bytes, w: Weather) returns (ending: Ending)
      requires Valid() && path !in entries
      modifies this`entries, this`inodes, this`syncs
      ensures Valid() && old(syncs) <= syncs && NothingRewritten() && NamesKept(path)
      ensures ending == Done ==> Holds(path, data) && JustSynced(path)
      ensures ending == Done <==> w.calls(1) == Proceed && w.calls(2) == Proceed
      ensures OthersAsBefore(path)
      ensures path in entries && inodes[entries[path]].regular && inodes[entries[path]].links == 1
      ensures inodes[entries[path]].bytes ==
        if w.calls(1) == Proceed then data else data[..Min(|data|, w.calls(1).partial)]
    {
      var n := FreshInode();
      entries, inodes := entries[path := n], inodes[n := Inode(true, 1, [], false)];
      if w.calls(1) != Proceed {
        inodes := inodes[n := Inode(true, 1, data[..Min(|data|, w.calls(1).partial)], false)];
        return Broken(w.calls(1));
      }
      inodes := inodes[n := Inode(true, 1, data, false)];
      if w.calls(2) != Proceed {
        return Broken(w.calls(2));
      }
      inodes := inodes[n := Inode(true, 1, data, true)];
      syncs := syncs + [n];
      assert syncs[|syncs| - 1] == entries[path];
      return Done;
    }

    /** `_create_exclusive` */
    method CreateExclusive(path: Path, data: Bytes, w: Weather) returns (ending: Ending)
      requires Valid()
      modifies this`entries, this`inodes, this`syncs
      ensures Valid() && old(syncs) <= syncs && NothingRewritten() && NamesKept(path)
      ensures path in old(evidence) ==> entries == old(entries)
      ensures ending == Done ==> Holds(path, data) && JustSynced(path)
      ensures ending == Done && path in old(entries) ==> entries[path] == old(entries)[path]
      ensures ending == Done <==>
        && w.calls(0) == Proceed && w.calls(6) == Proceed
        && if path !in old(entries) then w.calls(1) == Proceed && w.calls(2) == Proceed
           else && w.calls(3) == Proceed && w.calls(4) == Proceed && w.calls(5) == Proceed
                && path in entries && entries[path] == old(entries)[path] && old(Intact(path, data))
      ensures Undisturbed(w) ==> (ending == Done <==> old(Available(path, data)))
      ensures Undisturbed(w) && ending == Done ==> OthersAsBefore(path)
    {
      if w.calls(0) != Proceed {
        return Broken(w.calls(0));
      }
      if path in entries {
        ending := SyncExisting(path, data, w);
        if ending != Done {
          return;
        }
      } else {
        ending := WriteNew(path, data, w);
        if ending != Done {
          return;
        }
      }
      if w.calls(6) != Proceed {
        return Broken(w.calls(6));
      }
      if inodes[entries[path]].bytes != data {
        return Refused;
      }
      return Done;
    }

    /** Neither artifact is the reviewed file itself, and both can be put in place. */
    ghost predicate Preservable(naming: Naming, approval: Approval)
      reads this
    {
      && !naming.alias(naming.csv(approval), approval.source) && !naming.alias(naming.manifest(approval), approval.source)
      && Available(naming.csv(approval), approval.data)
      && Available(naming.manifest(approval), naming.manifestBytes(approval))
    }

    /** `preserve_approval_evidence`: the reviewed bytes first, then the manifest. */
    method Preserve(naming: Naming, approval: Approval, first: Weather, second: Weather) returns (ending: Ending)
      requires Valid()
      modifies this`entries, this`inodes, this`syncs
      ensures Valid() && old(syncs) <= syncs && NothingRewritten()
      ensures ending == Done ==>
        && Holds(naming.csv(approval), approval.data) && JustSynced(naming.csv(approval))
        && Holds(naming.manifest(approval), naming.manifestBytes(approval)) && JustSynced(naming.manifest(approval))
      ensures Undisturbed(first) && Undisturbed(second) && naming.csv(approval) != naming.manifest(approval) ==>
        (ending == Done <==> old(Preservable(naming, approval)))
    {
      var csv, manifest := naming.csv(approval), naming.manifest(approval);
      if naming.alias(csv, approval.source) {
        return Refused;
      }
      ending := CreateExclusive(csv, approval.data, first);
      if ending != Done {
        return;
      }
      if naming.alias(manifest, approval.source) {
        return Refused;
      }
      ending := CreateExclusive(manifest, naming.manifestBytes(approval), second);
    }

    /** One `--apply` run up to the start of `apply_rescore`, which it reaches only
        with approved bytes and both artifacts in place; a file the gate refuses
        leaves everything as it was. */
    method AttemptApply(naming: Naming, request: Request, first: Weather, second: Weather) returns (started: bool)
      requires Valid()
      modifies this
      ensures Valid() && old(syncs) <= syncs && NothingRewritten()
      ensures forall path :: path in old(evidence) ==> path in evidence && evidence[path] == old(evidence)[path]
      ensures !Passes(request.gate, request.approval.data) ==>
        !started && entries == old(entries) && inodes == old(inodes) && syncs == old(syncs)
      ensures started ==>
        var approval := request.approval;
        && Passes(request.gate, approval.data)
        && naming.csv(approval) in evidence && evidence[naming.csv(approval)] == approval.data
        && naming.manifest(approval) in evidence
        && evidence[naming.manifest(approval)] == naming.manifestBytes(approval)
        && JustSynced(naming.csv(approval)) && JustSynced(naming.manifest(approval))
      ensures !started ==> evidence == old(evidence)
      ensures
        var approval := request.approval;
        Undisturbed(first) && Undisturbed(second) && naming.csv(approval) != naming.manifest(approval) ==>
          (started <==> Passes(request.gate, approval.data) && old(Preservable(naming, approval)))
    {
      hide Preservable, Undisturbed, Intact, ReviewGate.Approved, ReviewGate.Verified, ReviewGate.Refuses,
        ReviewGate.SaysReject, ReviewGate.ReviewedFrom;
      var gate, approval := request.gate, request.approval;
      var verdict, _ := ReviewGate.EnforceGate(gate.upper, gate.decode(approval.data), gate.expected);
      if verdict.Err? {
        return false;
      }
      var ending := Preserve(naming, approval, first, second);
      if ending != Done {
        return false;
      }
      evidence := evidence[naming.csv(approval) := approval.data]
                          [naming.manifest(approval) := naming.manifestBytes(approval)];
      return true;
    }

    /** The machine goes down: a file that is not synced holds anything, or is gone. */
    method CrashMachine(left: nat -> Option<Bytes>)
      requires Valid()
      modifies this`entries, this`inodes
      ensures Valid()
    {
      var before := inodes;
      inodes := map n | n in before && (before[n].synced || left(n).Some?) ::
        if before[n].synced then before[n] else before[n].(bytes := left(n).value);
      entries := map p | p in entries && entries[p] in inodes :: entries[p];
    }

    /** Any sequence of attempts and crashes: every apply that was ever started was
        fully approved, and still has its exact, synced evidence at the end. */
    method Run(naming: Naming, occasions: seq<Occasion>) returns (starts: seq<Request>)
      requires Valid()
      modifies this
      ensures Valid()
      ensures forall i :: 0 <= i < |starts| ==>
        var approval := starts[i].approval;
        && Passes(starts[i].gate, approval.data)
        && Holds(naming.csv(approval), approval.data)
        && Holds(naming.manifest(approval), naming.manifestBytes(approval))
    {
      hide Passes;
      starts := [];
      for k := 0 to |occasions|
        invariant Valid()
        invariant forall i :: 0 <= i < |starts| ==>
          var approval := starts[i].approval;
          && Passes(starts[i].gate, approval.data)
          && naming.csv(approval) in evidence && evidence[naming.csv(approval)] == approval.data
          && naming.manifest(approval) in evidence
          && evidence[naming.manifest(approval)] == naming.manifestBytes(approval)
      {
        match occasions[k] {
          case Attempt(request, first, second) =>
            var started := AttemptApply(naming, request, first, second);
            if started {
              starts := starts + [request];
            }
          case Crash(left) => CrashMachine(left);
        }
      }
    }
  }
}
