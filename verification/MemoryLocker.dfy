/** The in-memory keyed locker itself: each method is one atomic section of Lock, of
    the unlock function or of release, and does the step of KeyedLock's machine. */
module MemoryLocker {
  import L = KeyedLock

  /** `token` says whether the entry's channel, of capacity one, holds its token. */
  class LockEntry {
    var token: bool
    var refs: int
    const key: string
    ghost const id: nat

    constructor (key: string, ghost id: nat)
      ensures this.key == key && this.id == id && token && refs == 0
    {
      this.key, this.id, this.token, this.refs := key, id, true, 0;
    }
  }

  class MemoryZoneLocker {
    var entries: map<string, LockEntry>
    /** Every entry ever made, deleted ones included. */
    ghost var made: seq<LockEntry>
    /** The Lock calls that are inside. */
    ghost var calls: map<L.Call, L.Use>

    ghost predicate Linked()
      reads this, made
    {
      && (forall i :: 0 <= i < |made| ==> made[i].id == i)
      && (forall key :: key in entries ==> entries[key].id < |made| && made[entries[key].id] == entries[key])
    }

    ghost function Abs(): L.State
      requires Linked()
      reads this, made
    {
      L.State(map key | key in entries :: entries[key].id,
              seq(|made|, i requires 0 <= i < |made| reads this, made => L.Entry(made[i].key, made[i].token, made[i].refs)),
              calls)
    }

    ghost predicate Valid()
      reads this, made
    {
      Linked() && L.Inv(Abs())
    }

    constructor ()
      ensures Valid() && Abs() == L.Empty && made == []
    {
      entries, made, calls := map[], [], map[];
    }

    /** Lock up to its select, under mu. */
    method Register(ghost c: L.Call, key: string) returns (entry: LockEntry)
      requires Valid() && c !in calls
      modifies this, made
      ensures Valid() && Abs() == L.Next(old(Abs()), c, L.Register(key))
      ensures entry.id == calls[c].entry && entry.id < |made| && made[entry.id] == entry
      ensures made == old(made) || (made == old(made) + [entry] && fresh(entry))
    {
      L.StepKeepsInv(Abs(), c, L.Register(key));
      if key in entries {
        entry := entries[key];
        Refer(c, key, entry);
      } else {
        entry := Insert(c, key);
      }
    }

    method Refer(ghost c: L.Call, key: string, entry: LockEntry)
      requires Linked() && c !in calls && key in entries && entries[key] == entry
      modifies this`calls, entry`refs
      ensures Linked() && Abs() == L.Next(old(Abs()), c, L.Register(key))
      ensures entry.id == calls[c].entry
    {
      ghost var before := Abs();
      entry.refs := entry.refs + 1;
      calls := calls[c := L.Use(entry.id, L.Waiting)];
      assert Abs().table == L.Next(before, c, L.Register(key)).table;
      assert Abs() == L.Next(before, c, L.Register(key));
    }

    method Insert(ghost c: L.Call, key: string) returns (entry: LockEntry)
      requires Linked() && c !in calls && key !in entries
      modifies this
      ensures Linked() && Abs() == L.Next(old(Abs()), c, L.Register(key))
      ensures fresh(entry) && made == old(made) + [entry] && entry.id == calls[c].entry == |old(made)|
    {
      ghost var before := Abs();
      entry := new LockEntry(key, |made|);
      entry.refs := 1;
      Map(key, entry);
      calls := calls[c := L.Use(entry.id, L.Waiting)];
      assert Abs() == L.Next(before, c, L.Register(key));
    }

    /** A new entry, mapped and kept. */
    method Map(key: string, entry: LockEntry)
      requires Linked() && key !in entries && entry !in made && entry.id == |made| && entry.key == key
      modifies this`entries, this`made
      ensures Linked() && made == old(made) + [entry] && calls == old(calls)
      ensures Abs() == old(Abs()).(live := old(Abs()).live[key := entry.id],
                                   table := old(Abs()).table + [L.Entry(key, entry.token, entry.refs)])
    {
      ghost var before := Abs();
      entries := entries[key := entry];
      made := made + [entry];
      assert Abs().live == before.live[key := entry.id];
      assert Abs().table == before.table + [L.Entry(key, entry.token, entry.refs)];
    }

    /** The select receives the token. */
    method Receive(ghost c: L.Call, entry: LockEntry)
      requires Valid() && L.UsedAs(Abs(), c, L.Waiting)
      requires entry.id == calls[c].entry && made[entry.id] == entry && entry.token
      modifies this`calls, entry`token
      ensures Valid() && Abs() == L.Next(old(Abs()), c, L.Take)
    {
      ghost var before := Abs();
      L.StepKeepsInv(before, c, L.Take);
      entry.token := false;
      calls := calls[c := L.Use(entry.id, L.Holding)];
      assert Abs().table == L.Next(before, c, L.Take).table;
      assert Abs() == L.Next(before, c, L.Take);
    }

    /** The select sees ctx.Done instead. */
    ghost method Cancel(c: L.Call)
      requires Valid() && L.UsedAs(Abs(), c, L.Waiting)
      modifies this`calls
      ensures Valid() && Abs() == L.Next(old(Abs()), c, L.GiveUp)
    {
      var before := Abs();
      L.StepKeepsInv(before, c, L.GiveUp);
      calls := calls[c := L.Use(calls[c].entry, L.Leaving)];
      assert Abs() == L.Next(before, c, L.GiveUp);
    }

    /** The unlock function sends the token back: there is always room for it. */
    method Send(ghost c: L.Call, entry: LockEntry)
      requires Valid() && L.UsedAs(Abs(), c, L.Holding)
      requires entry.id == calls[c].entry && made[entry.id] == entry
      modifies this`calls, entry`token
      ensures !old(entry.token)
      ensures Valid() && Abs() == L.Next(old(Abs()), c, L.ReturnToken)
    {
      ghost var before := Abs();
      L.ReturnNeverBlocks(before, c);
      L.StepKeepsInv(before, c, L.ReturnToken);
      entry.token := true;
      calls := calls[c := L.Use(entry.id, L.Leaving)];
      assert Abs().table == L.Next(before, c, L.ReturnToken).table;
      assert Abs() == L.Next(before, c, L.ReturnToken);
    }

    method Release(ghost c: L.Call, key: string, entry: LockEntry)
      requires Valid() && L.UsedAs(Abs(), c, L.Leaving)
      requires entry.id == calls[c].entry && made[entry.id] == entry && entry.key == key
      modifies this`calls, this`entries, entry`refs
      ensures Valid() && Abs() == L.Next(old(Abs()), c, L.Release)
    {
      L.StepKeepsInv(Abs(), c, L.Release);
      Unrefer(c, key, entry);
    }

    method Unrefer(ghost c: L.Call, key: string, entry: LockEntry)
      requires Linked() && L.Enabled(Abs(), c, L.Release)
      requires entry.id == calls[c].entry && made[entry.id] == entry && entry.key == key
      modifies this`calls, this`entries, entry`refs
      ensures Linked() && Abs() == L.Next(old(Abs()), c, L.Release)
    {
      ghost var before := Abs();
      entry.refs := entry.refs - 1;
      calls := calls - {c};
      assert Abs().table == L.Next(before, c, L.Release).table;
      if entry.refs == 0 && key in entries && entries[key] == entry {
        Unmap(key);
      }
      assert Abs().live == L.Next(before, c, L.Release).live;
      assert Abs() == L.Next(before, c, L.Release);
    }

    method Unmap(key: string)
      requires Linked()
      modifies this`entries
      ensures Linked() && entries == old(entries) - {key}
      ensures Abs() == old(Abs()).(live := old(Abs()).live - {key})
    {
      ghost var before := Abs();
      entries := entries - {key};
      assert Abs().live == before.live - {key};
      assert Abs().table == before.table;
    }
  }
}
