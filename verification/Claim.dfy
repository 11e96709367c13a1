/** Look-up ids and the single-use claim of one caller (packages/bootstrap-rendezvous-service/src/claim.ts). */
module Claim {
  import opened Common

  predicate IsBase64Url(ch: char) {
    'A' <= ch <= 'Z' || 'a' <= ch <= 'z' || '0' <= ch <= '9' || ch == '_' || ch == '-'
  }

  predicate HasDotDot(s: string) {
    exists i :: 0 <= i < |s| - 1 && s[i] == '.' && s[i + 1] == '.'
  }

  /** `assertSafeLookupId` returns rather than throws. */
  predicate SafeLookupId(s: string) {
    && s != "." && s != ".." && !HasDotDot(s)
    && |s| == 43 && forall i :: 0 <= i < |s| ==> IsBase64Url(s[i])
  }

  /** A safe id is a single path segment that is not a directory reference, so `id.marker` stays in its directory. */
  lemma SafeIdIsOneSegment(s: string)
    ensures SafeLookupId(s) <==> |s| == 43 && forall i :: 0 <= i < |s| ==> IsBase64Url(s[i])
    ensures SafeLookupId(s) ==> '/' !in s && '\\' !in s && '.' !in s
  {}

  /** A directory entry: the marker of an id, or a temp sibling told apart by its discriminator. */
  datatype Name = Marker(id: string) | Temp(id: string, owner: nat)

  /** The bytes of an inode: the body is written after the file is created, and not at once. */
  datatype Body = Partial | Complete(id: string)

  datatype LinkResult = Linked | Eexist | LinkFailed
  datatype UnlinkResult = Unlinked | Enoent | UnlinkFailed

  /** The claims directory of one caller at a time; Lifecycle.dfy lets callers interleave. `faults` counts failing calls. */
  class ClaimsDir {
    var entries: map<Name, nat>
    var bodies: map<nat, Body>
    var nextInode: nat
    ghost var faults: nat

    ghost predicate Valid() reads this {
      && (forall n :: n in entries ==> entries[n] in bodies)
      && (forall i :: i in bodies ==> i < nextInode)
    }

    /** Everything but the two names of this claim is as it was. */
    twostate predicate OnlyTouches(id: string, discriminator: nat) reads this {
      && (forall n :: n != Marker(id) && n != Temp(id, discriminator) ==>
            (n in entries <==> n in old(entries)) && (n in entries ==> entries[n] == old(entries)[n]))
      && (forall i :: i in old(bodies) ==> i in bodies && bodies[i] == old(bodies)[i])
    }

    /** A failing write may leave no file, or a file with part of the body. */
    method WriteFile(name: Name, id: string) returns (ok: bool)
      requires Valid() && name !in entries
      modifies this
      ensures Valid() && nextInode >= old(nextInode) && faults >= old(faults)
      ensures ok <==> faults == old(faults)
      ensures ok ==> name in entries && entries[name] == old(nextInode) && bodies[old(nextInode)] == Complete(id)
      ensures entries == old(entries) || entries == old(entries)[name := old(nextInode)]
      ensures forall i :: i in old(bodies) ==> i in bodies && bodies[i] == old(bodies)[i]
    {
      var created, complete: bool := *, *;
      ok := created && complete;
      if !ok { faults := faults + 1; }
      if created {
        entries := entries[name := nextInode];
        bodies := bodies[nextInode := if complete then Complete(id) else Partial];
        nextInode := nextInode + 1;
      }
    }

    /** link(2): publishes the whole inode under the new name, or refuses because the name exists. */
    method LinkFile(from: Name, to: Name) returns (r: LinkResult)
      requires Valid()
      modifies this
      ensures Valid() && bodies == old(bodies)
      ensures r.Linked? ==> from in old(entries) && to !in old(entries) && entries == old(entries)[to := old(entries)[from]]
      ensures !r.Linked? ==> entries == old(entries)
      ensures r.Eexist? ==> to in entries
      ensures faults == old(faults) ==> (r.Eexist? <==> to in entries && !r.Linked?) && (r.LinkFailed? ==> from !in entries)
      ensures faults >= old(faults)
    {
      var fails: bool := *;
      if fails {
        faults := faults + 1;
        return LinkFailed;
      }
      if to in entries { return Eexist; }
      if from !in entries { return LinkFailed; }
      entries := entries[to := entries[from]];
      return Linked;
    }

    method Unlink(name: Name) returns (r: UnlinkResult)
      requires Valid()
      modifies this
      ensures Valid() && bodies == old(bodies) && faults >= old(faults)
      ensures r.Unlinked? || r.Enoent? ==> entries == old(entries) - {name}
      ensures r.UnlinkFailed? ==> entries == old(entries) && faults > old(faults)
    {
      var fails: bool := *;
      if fails {
        faults := faults + 1;
        return UnlinkFailed;
      }
      r := if name in entries then Unlinked else Enoent;
      entries := entries - {name};
    }

    /**
     * `claimSingleUse`. True means this call published the marker, whole; false means it was there already and
     * nothing changed. Without a failing call one of the two is returned, and no temp name stays.
     */
    method ClaimSingleUse(id: string, discriminator: nat) returns (r: Result<bool, string>)
      requires Valid() && Temp(id, discriminator) !in entries
      modifies this
      ensures Valid() && OnlyTouches(id, discriminator)
      ensures !SafeLookupId(id) ==> r.Err? && entries == old(entries)
      ensures r == Ok(true) ==> Marker(id) !in old(entries) && Marker(id) in entries
                                && entries == old(entries)[Marker(id) := entries[Marker(id)]]
                                && bodies[entries[Marker(id)]] == Complete(id)
      ensures r == Ok(false) ==> Marker(id) in old(entries) && entries == old(entries)
      ensures Marker(id) in old(entries) ==> Marker(id) in entries && entries[Marker(id)] == old(entries)[Marker(id)]
      ensures Marker(id) in entries && Marker(id) !in old(entries) ==> bodies[entries[Marker(id)]] == Complete(id)
      ensures SafeLookupId(id) && faults == old(faults) ==> r == Ok(Marker(id) !in old(entries))
    {
      hide SafeLookupId;
      if !SafeLookupId(id) { return Err("lookupId"); }
      var finalPath, tmpPath := Marker(id), Temp(id, discriminator);
      var written := WriteFile(tmpPath, id);
      if written {
        var linked := LinkFile(tmpPath, finalPath);
        match linked
        case Linked => r := Ok(true);
        case Eexist => r := Ok(false);
        case LinkFailed => r := Err("link");
      } else {
        r := Err("write");
      }
      var removed := Unlink(tmpPath);
      if removed.UnlinkFailed? { r := Err("unlink"); }
    }

    /** `deleteClaimMarker`: a missing marker is not an error. */
    method DeleteClaimMarker(id: string) returns (ok: bool)
      requires Valid()
      modifies this
      ensures Valid() && bodies == old(bodies)
      ensures !SafeLookupId(id) ==> !ok && entries == old(entries)
      ensures ok ==> entries == old(entries) - {Marker(id)}
      ensures !ok ==> entries == old(entries)
      ensures SafeLookupId(id) && faults == old(faults) ==> ok
    {
      hide SafeLookupId;
      if !SafeLookupId(id) { return false; }
      var removed := Unlink(Marker(id));
      ok := !removed.UnlinkFailed?;
    }
  }
}
