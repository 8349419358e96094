/** The handle tables: what a handle is, and how a table may change. */
module Handles {
  import opened Bytes

  datatype Slot = Slot(used: bool, pset: nat, blob: seq<byte>)

  /** The handle the next key gets: the first one not in use. */
  function FirstFree(table: seq<Slot>, from: nat): (h: nat)
    decreases |table| - from
  {
    if from < |table| && table[from].used then FirstFree(table, from + 1) else from
  }

  lemma FirstFreeIs(table: seq<Slot>)
    ensures FirstFree(table, 0) <= |table|
    ensures FirstFree(table, 0) < |table| ==> !table[FirstFree(table, 0)].used
    ensures forall h :: 0 <= h < FirstFree(table, 0) ==> table[h].used
  {
    FirstFreeFrom(table, 0);
  }

  lemma {:induction false} FirstFreeFrom(table: seq<Slot>, from: nat)
    requires from <= |table|
    ensures from <= FirstFree(table, from) <= |table|
    ensures FirstFree(table, from) < |table| ==> !table[FirstFree(table, from)].used
    ensures forall h :: from <= h < FirstFree(table, from) ==> table[h].used
    decreases |table| - from
  {
    if from < |table| && table[from].used {
      FirstFreeFrom(table, from + 1);
    }
  }

  lemma {:induction false} FirstFreeUnique(table: seq<Slot>, from: nat, h: nat)
    requires from <= h <= |table|
    requires forall i :: from <= i < h ==> table[i].used
    requires h < |table| ==> !table[h].used
    ensures FirstFree(table, from) == h
    decreases h - from
  {
    if from < h {
      FirstFreeUnique(table, from + 1, h);
    }
  }

  /** Live handles are a prefix of the table, each with a known parameter set. */
  predicate Sensible(table: seq<Slot>) {
    forall h :: 0 <= h < |table| ==>
      && (table[h].used <==> h < FirstFree(table, 0))
      && (table[h].used ==> table[h].pset <= 2)
  }

  predicate Blank(table: seq<Slot>) {
    forall h :: 0 <= h < |table| ==> !table[h].used
  }

  lemma BlankIsSensible(table: seq<Slot>)
    requires Blank(table)
    ensures Sensible(table)
  {
    FirstFreeIs(table);
  }

  /** One key more, at the first free handle; every other entry as it was. */
  predicate Opened(table: seq<Slot>, table': seq<Slot>, pset: nat) {
    && FirstFree(table, 0) < |table| == |table'|
    && table'[FirstFree(table, 0)].used && table'[FirstFree(table, 0)].pset == pset
    && table' == table[FirstFree(table, 0) := table'[FirstFree(table, 0)]]
  }

  function Newest(table: seq<Slot>, table': seq<Slot>): Slot
    requires FirstFree(table, 0) < |table'|
  {
    table'[FirstFree(table, 0)]
  }

  /** No key more and none less; a free entry may hold the bytes of an abandoned blob. */
  predicate Unopened(table: seq<Slot>, table': seq<Slot>) {
    && |table'| == |table|
    && forall h :: 0 <= h < |table| ==> table'[h].used == table[h].used && (table[h].used ==> table'[h] == table[h])
  }

  /** Either way the live handles stay a prefix. */
  lemma StaysSensible(table: seq<Slot>, table': seq<Slot>)
    requires Sensible(table)
    requires Unopened(table, table') || exists pset :: pset <= 2 && Opened(table, table', pset)
    ensures Sensible(table')
    ensures FirstFree(table', 0) == FirstFree(table, 0) + if Unopened(table, table') then 0 else 1
  {
    FirstFreeIs(table);
    var h := FirstFree(table, 0);
    FirstFreeUnique(table', 0, if Unopened(table, table') then h else h + 1);
  }

  /** The four bytes a client is given for handle `h`. */
  predicate Names(bytes: seq<byte>, h: nat) {
    |bytes| == 4 && FromLE4(bytes) == h
  }
}
