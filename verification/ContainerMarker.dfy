/**
 The container-marker algorithm and backup deletion as they run: the manifest rebuilt record by
 record, the key-value store swept container by container (src/cma.c, src/do_delete.c).
 */
module ContainerMarker {
  import opened Common
  import opened DedupSpec
  import History

  class Marker {
    var manifest: map<ContainerId, nat>
    var kv: map<Fingerprint, ContainerId>

    constructor ()
      ensures manifest == map[] && kv == map[]
    {
      manifest, kv := map[], map[];
    }

    /** update_manifest: every container of the finished job gets the job's time. */
    method UpdateManifest(monitor: set<ContainerId>, job: nat)
      modifies this`manifest
      ensures manifest == History.UpdateManifest(old(manifest), monitor, job)
    {
      var todo := monitor;
      while |todo| != 0
        invariant todo <= monitor
        invariant manifest == History.UpdateManifest(old(manifest), monitor - todo, job)
        decreases todo
      {
        ghost var some := SomeElement(todo);
        var id :| id in todo;
        manifest := manifest[id := job];
        todo := todo - {id};
      }
      assert monitor - {} == monitor;
    }

    /** trunc_manifest: split the records into those still valid and those to reclaim. */
    method TruncManifest(upTo: nat) returns (invalid: set<ContainerId>)
      modifies this`manifest
      ensures invalid == History.Invalid(old(manifest), upTo)
      ensures manifest == old(manifest) - invalid
    {
      invalid := {};
      var kept: map<ContainerId, nat> := map[];
      var todo := manifest.Keys;
      while |todo| != 0
        invariant manifest == old(manifest) && todo <= manifest.Keys
        invariant invalid == set id | id in manifest.Keys - todo && manifest[id] <= upTo
        invariant kept == map id | id in manifest.Keys - todo && manifest[id] > upTo :: manifest[id]
        decreases todo
      {
        ghost var some := SomeElement(todo);
        var id :| id in todo;
        if manifest[id] <= upTo {
          invalid := invalid + {id};
        } else {
          kept := kept[id := manifest[id]];
        }
        todo := todo - {id};
      }
      manifest := kept;
    }

    /** kvstore_htable_delete with one value per key. */
    method KvDelete(fp: Fingerprint, id: ContainerId)
      modifies this`kv
      ensures kv == if fp in old(kv) && old(kv)[fp] == id then old(kv) - {fp} else old(kv)
    {
      if fp in kv && kv[fp] == id {
        kv := kv - {fp};
      }
    }

    /** The entries of one reclaimed container. */
    method DeleteContainer(c: Container)
      modifies this`kv
      ensures kv == map fp | fp in old(kv) && !(old(kv)[fp] == c.id && fp in c.fps) :: old(kv)[fp]
    {
      for i := 0 to |c.fps|
        invariant kv == map fp | fp in old(kv) && !(old(kv)[fp] == c.id && fp in c.fps[..i]) :: old(kv)[fp]
      {
        KvDelete(c.fps[i], c.id);
        assert c.fps[..i + 1] == c.fps[..i] + [c.fps[i]];
      }
      assert c.fps[..|c.fps|] == c.fps;
    }

    /** do_delete in physical mode: reclaim, then drop the entries of what was reclaimed. */
    method DoDelete(upTo: nat, written: map<ContainerId, Container>) returns (invalid: set<ContainerId>)
      requires manifest.Keys <= written.Keys
      requires forall id :: id in written ==> written[id].id == id
      modifies this
      ensures invalid == History.Invalid(old(manifest), upTo)
      ensures manifest == old(manifest) - invalid
      ensures forall st: Store :: st.kv == old(kv) && st.written == written ==>
                kv == History.DropEntries(st, invalid)
    {
      invalid := TruncManifest(upTo);
      var todo := invalid;
      while |todo| != 0
        invariant todo <= invalid
        invariant manifest == old(manifest) - invalid
        invariant kv == map fp | fp in old(kv)
          && !(old(kv)[fp] in invalid - todo && old(kv)[fp] in written && fp in written[old(kv)[fp]].fps) :: old(kv)[fp]
        decreases todo
      {
        ghost var some := SomeElement(todo);
        var id :| id in todo;
        DeleteContainer(written[id]);
        todo := todo - {id};
      }
      assert invalid - {} == invalid;
    }
  }
}
