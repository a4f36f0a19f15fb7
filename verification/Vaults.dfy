// The vault in the client's memory and its conflict resolver, in both implementations:
// the insertion-ordered dictionary of client-py/vault.py and the unordered hash map of
// client/src/vault.cpp.
module Vaults {
  import opened Common

  datatype Entry = Entry(id: string, service: string, username: string, password: string,
                         notes: string, updatedAt: nat)
  {
    predicate SameContent(other: Entry) {
      service == other.service && username == other.username &&
      password == other.password && notes == other.notes
    }

    // What a conflict on this (server) entry is reported as.
    function Label(): string {
      if service != "" then service else id
    }
  }

  // What an entry list holds under each id. A repeated id counts with its last entry.
  function ById(es: seq<Entry>): map<string, Entry> {
    if es == [] then map[]
    else ById(es[..|es|-1])[es[|es|-1].id := es[|es|-1]]
  }

  function Ids(es: seq<Entry>): set<string> { ById(es).Keys }

  function IdSeq(es: seq<Entry>): (ks: seq<string>) {
    seq(|es|, i requires 0 <= i < |es| => es[i].id)
  }

  ghost predicate UniqueIds(es: seq<Entry>) {
    forall i, j :: 0 <= i < j < |es| ==> es[i].id != es[j].id
  }

  lemma ByIdSnoc(init: seq<Entry>, e: Entry)
    ensures ById(init + [e]) == ById(init)[e.id := e]
  {
    assert (init + [e])[..|init|] == init;
  }

  lemma {:induction false} IdAt(es: seq<Entry>, i: nat)
    requires i < |es|
    ensures es[i].id in ById(es)
  {
    if i < |es| - 1 {
      assert es[..|es|-1][i] == es[i];
      IdAt(es[..|es|-1], i);
    }
  }

  lemma {:induction false} IndexOf(es: seq<Entry>, k: string) returns (i: nat)
    requires k in ById(es)
    ensures i < |es| && es[i].id == k && ById(es)[k] == es[i]
  {
    if es[|es|-1].id == k {
      i := |es| - 1;
    } else {
      i := IndexOf(es[..|es|-1], k);
    }
  }

  lemma UniqueAt(es: seq<Entry>, i: nat)
    requires UniqueIds(es) && i < |es|
    ensures es[i].id in ById(es) && ById(es)[es[i].id] == es[i]
  {
    IdAt(es, i);
    var j := IndexOf(es, es[i].id);
  }

  // ----- the insertion-ordered dictionary from id to entry, as the list of its values -----

  // Assigning under an id: in place when the id is present, appended when it is not.
  function Set(d: seq<Entry>, e: Entry): seq<Entry> {
    if e.id in Ids(d) then Replace(d, e) else d + [e]
  }

  function Replace(d: seq<Entry>, e: Entry): seq<Entry> {
    if d == [] then []
    else if d[|d|-1].id == e.id then d[..|d|-1] + [e]
    else Replace(d[..|d|-1], e) + [d[|d|-1]]
  }

  // The dictionary comprehension over an entry list: first position, last value.
  function DictOf(es: seq<Entry>): seq<Entry> {
    if es == [] then [] else Set(DictOf(es[..|es|-1]), es[|es|-1])
  }

  lemma {:induction false} ByIdReplace(d: seq<Entry>, e: Entry)
    requires e.id in Ids(d)
    ensures ById(Replace(d, e)) == ById(d)[e.id := e]
  {
    var init, last := d[..|d|-1], d[|d|-1];
    if last.id == e.id {
      ByIdSnoc(init, e);
    } else {
      ByIdReplace(init, e);
      ByIdSnoc(Replace(init, e), last);
    }
  }

  lemma ByIdSet(d: seq<Entry>, e: Entry)
    ensures ById(Set(d, e)) == ById(d)[e.id := e]
  {
    if e.id in Ids(d) {
      ByIdReplace(d, e);
    } else {
      ByIdSnoc(d, e);
    }
  }

  lemma {:induction false} ByIdDictOf(es: seq<Entry>)
    ensures ById(DictOf(es)) == ById(es)
  {
    if es != [] {
      ByIdDictOf(es[..|es|-1]);
      ByIdSet(DictOf(es[..|es|-1]), es[|es|-1]);
    }
  }

  lemma UniqueSnoc(d: seq<Entry>, e: Entry)
    requires UniqueIds(d) && e.id !in Ids(d)
    ensures UniqueIds(d + [e])
  {
    forall i | 0 <= i < |d| ensures d[i].id != e.id { IdAt(d, i); }
  }

  lemma {:induction false} IdSeqReplace(d: seq<Entry>, e: Entry)
    ensures IdSeq(Replace(d, e)) == IdSeq(d)
  {
    if d != [] {
      var init, last := d[..|d|-1], d[|d|-1];
      IdSeqReplace(init, e);
      var r := Replace(init, e);
      assert |r| == |IdSeq(r)| == |IdSeq(init)| == |init|;
      forall i | 0 <= i < |init| ensures r[i].id == d[i].id {
        assert IdSeq(r)[i] == IdSeq(init)[i];
      }
    }
  }

  lemma SetUnique(d: seq<Entry>, e: Entry)
    requires UniqueIds(d)
    ensures UniqueIds(Set(d, e))
  {
    if e.id in Ids(d) {
      IdSeqReplace(d, e);
      var r := Replace(d, e);
      assert |IdSeq(r)| == |IdSeq(d)|;
      forall i | 0 <= i < |r| ensures r[i].id == d[i].id {
        assert IdSeq(r)[i] == IdSeq(d)[i];
      }
    } else {
      UniqueSnoc(d, e);
    }
  }

  lemma {:induction false} DictOfIsUnique(es: seq<Entry>)
    ensures UniqueIds(DictOf(es))
  {
    if es != [] {
      DictOfIsUnique(es[..|es|-1]);
      SetUnique(DictOf(es[..|es|-1]), es[|es|-1]);
    }
  }

  lemma {:induction false} DictOfUnique(es: seq<Entry>)
    requires UniqueIds(es)
    ensures DictOf(es) == es
  {
    if es != [] {
      var init, last := es[..|es|-1], es[|es|-1];
      DictOfUnique(init);
      if last.id in Ids(init) { var i := IndexOf(init, last.id); }
    }
  }

  // ----- one server entry against the merged map so far -----

  predicate Clash(m: map<string, Entry>, s: Entry) { s.id in m && !m[s.id].SameContent(s) }

  predicate TakesServer(m: map<string, Entry>, s: Entry) {
    s.id !in m || (!m[s.id].SameContent(s) && s.updatedAt >= m[s.id].updatedAt)
  }

  // The id-to-entry map after merging a list of server entries, in order.
  function MergeMap(m: map<string, Entry>, server: seq<Entry>): map<string, Entry> {
    if server == [] then m
    else
      var before, s := MergeMap(m, server[..|server|-1]), server[|server|-1];
      if TakesServer(before, s) then before[s.id := s] else before
  }

  // The conflicts reported while merging, in server order.
  function Conflicts(m: map<string, Entry>, server: seq<Entry>): seq<string> {
    if server == [] then []
    else
      var init, s := server[..|server|-1], server[|server|-1];
      Conflicts(m, init) + (if Clash(MergeMap(m, init), s) then [s.Label()] else [])
  }

  // The same on the ordered dictionary.
  function MergeDict(d: seq<Entry>, server: seq<Entry>): seq<Entry> {
    if server == [] then d
    else
      var before, s := MergeDict(d, server[..|server|-1]), server[|server|-1];
      if TakesServer(ById(before), s) then Set(before, s) else before
  }

  lemma MergeSnoc(d: seq<Entry>, server: seq<Entry>, i: nat)
    requires i < |server|
    ensures var before, s := MergeDict(d, server[..i]), server[i];
            && MergeDict(d, server[..i+1]) ==
                 (if TakesServer(ById(before), s) then Set(before, s) else before)
            && Conflicts(ById(d), server[..i+1]) ==
                 Conflicts(ById(d), server[..i]) + (if Clash(ById(before), s) then [s.Label()] else [])
  {
    assert server[..i+1][..i] == server[..i];
    MergeDictById(d, server[..i]);
  }

  // The entry list after a merge with the dictionary implementation.
  function Merge(local: seq<Entry>, server: seq<Entry>): seq<Entry> {
    MergeDict(DictOf(local), server)
  }

  lemma {:induction false} MergeDictById(d: seq<Entry>, server: seq<Entry>)
    ensures ById(MergeDict(d, server)) == MergeMap(ById(d), server)
  {
    if server != [] {
      MergeDictById(d, server[..|server|-1]);
      ByIdSet(MergeDict(d, server[..|server|-1]), server[|server|-1]);
    }
  }

  lemma {:induction false} MergeDictUnique(d: seq<Entry>, server: seq<Entry>)
    requires UniqueIds(d)
    ensures UniqueIds(MergeDict(d, server))
  {
    if server != [] {
      MergeDictUnique(d, server[..|server|-1]);
      SetUnique(MergeDict(d, server[..|server|-1]), server[|server|-1]);
    }
  }

  // The dictionary refines the plain map, and its list never repeats an id.
  lemma MergeById(local: seq<Entry>, server: seq<Entry>)
    ensures ById(Merge(local, server)) == MergeMap(ById(local), server)
    ensures UniqueIds(Merge(local, server))
  {
    ByIdDictOf(local);
    DictOfIsUnique(local);
    MergeDictById(DictOf(local), server);
    MergeDictUnique(DictOf(local), server);
  }

  // ----- merge algebra -----

  // No id is lost and none is invented.
  lemma {:induction false} MergeMapIds(m: map<string, Entry>, server: seq<Entry>)
    ensures MergeMap(m, server).Keys == m.Keys + Ids(server)
  {
    if server != [] {
      var init, s := server[..|server|-1], server[|server|-1];
      MergeMapIds(m, init);
      assert Ids(server) == Ids(init) + {s.id};
    }
  }

  // A local entry only ever yields to one that is no older.
  lemma {:induction false} MergeMapLocal(m: map<string, Entry>, server: seq<Entry>, k: string)
    requires k in m
    ensures k in MergeMap(m, server)
    ensures MergeMap(m, server)[k] == m[k] || MergeMap(m, server)[k].updatedAt >= m[k].updatedAt
    ensures k !in ById(server) ==> MergeMap(m, server)[k] == m[k]
  {
    if server != [] {
      MergeMapLocal(m, server[..|server|-1], k);
    }
  }

  // An entry whose content differs from the (last) server entry of its id is strictly newer
  // than that entry. This holds for every server list, repeated ids included.
  lemma {:induction false} MergeMapServer(m: map<string, Entry>, server: seq<Entry>, k: string)
    requires k in ById(server)
    ensures k in MergeMap(m, server)
    ensures || MergeMap(m, server)[k].SameContent(ById(server)[k])
            || MergeMap(m, server)[k].updatedAt > ById(server)[k].updatedAt
  {
    var init, s := server[..|server|-1], server[|server|-1];
    if s.id != k {
      MergeMapServer(m, init, k);
    }
  }

  // The winner of one id between a local and a server entry.
  function Winner(local: Entry, s: Entry): Entry {
    if local.SameContent(s) then local
    else if s.updatedAt >= local.updatedAt then s
    else local
  }

  lemma UniqueInit(server: seq<Entry>)
    requires UniqueIds(server) && server != []
    ensures UniqueIds(server[..|server|-1])
    ensures server[|server|-1].id !in ById(server[..|server|-1])
  {
    var init, s := server[..|server|-1], server[|server|-1];
    if s.id in ById(init) { var i := IndexOf(init, s.id); }
  }

  lemma {:induction false} MergeMapUnique(m: map<string, Entry>, server: seq<Entry>, k: string)
    requires UniqueIds(server)
    requires k in ById(server)
    ensures k in MergeMap(m, server)
    ensures MergeMap(m, server)[k] ==
            if k in m then Winner(m[k], ById(server)[k]) else ById(server)[k]
  {
    var init, s := server[..|server|-1], server[|server|-1];
    UniqueInit(server);
    if s.id != k {
      MergeMapUnique(m, init, k);
    } else if k in m {
      MergeMapLocal(m, init, k);
    } else {
      MergeMapIds(m, init);
    }
  }

  // The conflicts of a merge with distinct server ids, read off the inputs alone:
  // every server entry that differs from the local entry of its id, in server order.
  function Differing(m: map<string, Entry>, server: seq<Entry>): seq<string> {
    if server == [] then []
    else Differing(m, server[..|server|-1]) +
         (if Clash(m, server[|server|-1]) then [server[|server|-1].Label()] else [])
  }

  lemma {:induction false} ConflictsUnique(m: map<string, Entry>, server: seq<Entry>)
    requires UniqueIds(server)
    ensures Conflicts(m, server) == Differing(m, server)
  {
    if server != [] {
      var init, s := server[..|server|-1], server[|server|-1];
      UniqueInit(server);
      ConflictsUnique(m, init);
      MergeMapIds(m, init);
      if s.id in m {
        MergeMapLocal(m, init, s.id);
      }
    }
  }

  // The complete description of a merge with distinct server ids.
  lemma MergeAlgebra(local: seq<Entry>, server: seq<Entry>, k: string)
    requires UniqueIds(server)
    ensures k in Ids(Merge(local, server)) <==> k in Ids(local) || k in Ids(server)
    ensures k in Ids(local) && k !in Ids(server) ==>
              ById(Merge(local, server))[k] == ById(local)[k]
    ensures k in Ids(server) && k !in Ids(local) ==>
              ById(Merge(local, server))[k] == ById(server)[k]
    ensures k in Ids(server) && k in Ids(local) ==>
              ById(Merge(local, server))[k] == Winner(ById(local)[k], ById(server)[k])
    ensures k in Ids(server) ==>
              var r := ById(Merge(local, server))[k];
              r.SameContent(ById(server)[k]) || r.updatedAt > ById(server)[k].updatedAt
  {
    MergeById(local, server);
    MergeMapIds(ById(local), server);
    if k in Ids(server) {
      MergeMapUnique(ById(local), server, k);
    } else if k in Ids(local) {
      MergeMapLocal(ById(local), server, k);
    }
  }

  lemma IdSeqSet(d: seq<Entry>, e: Entry)
    ensures IdSeq(Set(d, e)) == IdSeq(d) + (if e.id in Ids(d) then [] else [e.id])
  {
    if e.id in Ids(d) {
      IdSeqReplace(d, e);
    }
  }

  // The ids a server list adds to the ids already there, in order of first appearance.
  function NewIds(have: set<string>, server: seq<Entry>): seq<string> {
    if server == [] then []
    else
      var init, s := server[..|server|-1], server[|server|-1];
      NewIds(have, init) + (if s.id in have || s.id in Ids(init) then [] else [s.id])
  }

  lemma {:induction false} DictOrder(d: seq<Entry>, server: seq<Entry>)
    ensures IdSeq(MergeDict(d, server)) == IdSeq(d) + NewIds(Ids(d), server)
  {
    if server == [] {
      assert NewIds(Ids(d), server) == [];
    } else {
      var init, s := server[..|server|-1], server[|server|-1];
      DictOrder(d, init);
      MergeDictById(d, init);
      MergeMapIds(ById(d), init);
      IdSeqSet(MergeDict(d, init), s);
      assert s.id in Ids(MergeDict(d, init)) <==> s.id in Ids(d) || s.id in Ids(init);
    }
  }

  lemma {:induction false} DictOfOrder(es: seq<Entry>)
    ensures IdSeq(DictOf(es)) == NewIds({}, es)
  {
    if es != [] {
      var init, e := es[..|es|-1], es[|es|-1];
      DictOfOrder(init);
      ByIdDictOf(init);
      IdSeqSet(DictOf(init), e);
    }
  }

  // Order after a merge: the local ids, each where it first appears in the local list, then
  // the server-only ids, each where it first appears in the server's.
  lemma MergeOrder(local: seq<Entry>, server: seq<Entry>)
    ensures IdSeq(Merge(local, server)) == NewIds({}, local) + NewIds(Ids(local), server)
    ensures UniqueIds(local) ==> NewIds({}, local) == IdSeq(local)
  {
    DictOfOrder(local);
    ByIdDictOf(local);
    DictOrder(DictOf(local), server);
    if UniqueIds(local) {
      DictOfUnique(local);
    }
  }

  // ----- merging again -----

  // Of two server entries with one id that differ in content, the later is no older.
  ghost predicate InOrder(server: seq<Entry>) {
    forall i, j :: 0 <= i < j < |server| && server[i].id == server[j].id ==>
                     server[i].SameContent(server[j]) || server[i].updatedAt <= server[j].updatedAt
  }

  lemma UniqueIsInOrder(server: seq<Entry>)
    requires UniqueIds(server)
    ensures InOrder(server)
  {}

  predicate Yields(x: Option<Entry>, s: Entry) {
    x.None? || (!x.value.SameContent(s) && s.updatedAt >= x.value.updatedAt)
  }

  // What a merge does to one id.
  function Fold(x: Option<Entry>, server: seq<Entry>, k: string): Option<Entry> {
    if server == [] then x
    else
      var before, s := Fold(x, server[..|server|-1], k), server[|server|-1];
      if s.id == k && Yields(before, s) then Some(s) else before
  }

  function Under(m: map<string, Entry>, k: string): Option<Entry> { if k in m then Some(m[k]) else None }

  lemma {:induction false} MergeMapIsFold(m: map<string, Entry>, server: seq<Entry>, k: string)
    ensures Under(MergeMap(m, server), k) == Fold(Under(m, k), server, k)
  {
    if server != [] {
      MergeMapIsFold(m, server[..|server|-1], k);
    }
  }

  lemma InOrderInit(server: seq<Entry>)
    requires InOrder(server) && server != []
    ensures InOrder(server[..|server|-1])
  {}

  // The entry reached is no older than any that differs from it.
  lemma {:induction false} FoldBound(x: Option<Entry>, server: seq<Entry>, k: string, i: nat)
    requires InOrder(server) && i < |server| && server[i].id == k
    ensures var r := Fold(x, server, k);
            r.Some? && (server[i].updatedAt <= r.value.updatedAt || server[i].SameContent(r.value))
  {
    var init, s := server[..|server|-1], server[|server|-1];
    InOrderInit(server);
    if i < |init| {
      assert init[i] == server[i];
      FoldBound(x, init, k, i);
      assert s.id == k ==> server[i].SameContent(s) || server[i].updatedAt <= s.updatedAt;
    }
  }

  // Where an entry that a merge brought in came from: nothing before it was newer, and what
  // follows it has its content.
  lemma {:induction false} FoldOrigin(x: Option<Entry>, server: seq<Entry>, k: string) returns (j: nat)
    requires InOrder(server) && Fold(x, server, k) != x
    ensures j < |server| && server[j].id == k && Fold(x, server, k) == Some(server[j])
    ensures forall i :: 0 <= i < j && server[i].id == k ==> server[i].updatedAt <= server[j].updatedAt
    ensures forall i :: j < i < |server| && server[i].id == k ==> server[i].SameContent(server[j])
  {
    var init, s := server[..|server|-1], server[|server|-1];
    InOrderInit(server);
    if s.id == k && Yields(Fold(x, init, k), s) {
      j := |init|;
      forall i | 0 <= i < j && server[i].id == k ensures server[i].updatedAt <= s.updatedAt {
        FoldBound(x, init, k, i);
      }
    } else {
      j := FoldOrigin(x, init, k);
      assert s.id == k ==> server[j].SameContent(s) || server[j].updatedAt <= s.updatedAt;
    }
  }

  // A second pass over such a list never leaves the age of that entry, and is back at the
  // entry itself once it has passed its place.
  lemma {:induction false} SecondPass(server: seq<Entry>, k: string, j: nat, n: nat)
    requires j < |server| && n <= |server| && server[j].id == k
    requires forall i :: 0 <= i < j && server[i].id == k ==> server[i].updatedAt <= server[j].updatedAt
    requires forall i :: j < i < |server| && server[i].id == k ==> server[i].SameContent(server[j])
    ensures var y := Fold(Some(server[j]), server[..n], k);
            && y.Some? && y.value.id == k && y.value.updatedAt == server[j].updatedAt
            && (n > j ==> y.value == server[j])
  {
    if n > 0 {
      SecondPass(server, k, j, n - 1);
      assert server[..n][..n-1] == server[..n-1];
    }
  }

  lemma FoldTwice(x: Option<Entry>, server: seq<Entry>, k: string)
    requires InOrder(server)
    ensures Fold(Fold(x, server, k), server, k) == Fold(x, server, k)
  {
    if Fold(x, server, k) != x {
      var j := FoldOrigin(x, server, k);
      SecondPass(server, k, j, |server|);
      assert server[..|server|] == server;
    }
  }

  lemma SameList(a: seq<Entry>, b: seq<Entry>)
    requires UniqueIds(a) && UniqueIds(b) && IdSeq(a) == IdSeq(b) && ById(a) == ById(b)
    ensures a == b
  {
    assert |a| == |IdSeq(a)| && |b| == |IdSeq(b)|;
    forall i | 0 <= i < |a| ensures a[i] == b[i] {
      assert IdSeq(a)[i] == IdSeq(b)[i];
      UniqueAt(a, i);
      UniqueAt(b, i);
    }
  }

  lemma {:induction false} NothingNew(have: set<string>, server: seq<Entry>)
    requires Ids(server) <= have
    ensures NewIds(have, server) == []
  {
    if server != [] {
      assert Ids(server) == Ids(server[..|server|-1]) + {server[|server|-1].id};
      NothingNew(have, server[..|server|-1]);
    }
  }

  // Merging again with the same server changes nothing, whenever its repeated ids, if any,
  // come in that order.
  lemma MergeIdempotent(local: seq<Entry>, server: seq<Entry>)
    requires InOrder(server)
    ensures Merge(Merge(local, server), server) == Merge(local, server)
  {
    var once := Merge(local, server);
    var twice := Merge(once, server);
    MergeById(local, server);
    MergeById(once, server);
    MergeMapIds(ById(local), server);
    MergeOrder(once, server);
    NothingNew(Ids(once), server);
    forall k: string ensures Under(ById(twice), k) == Under(ById(once), k) {
      MergeMapIsFold(ById(local), server, k);
      MergeMapIsFold(ById(once), server, k);
      FoldTwice(Under(ById(local), k), server, k);
    }
    assert forall k: string :: k in ById(twice) <==> Under(ById(twice), k).Some?;
    assert forall k: string :: k in ById(once) <==> Under(ById(once), k).Some?;
    assert ById(twice) == ById(once);
    SameList(twice, once);
  }

  ghost predicate AtMostTwice(server: seq<Entry>) {
    forall h, i, j :: 0 <= h < i < j < |server| ==> !(server[h].id == server[i].id == server[j].id)
  }

  lemma {:induction false} FoldSkips(x: Option<Entry>, server: seq<Entry>, k: string, lo: nat, hi: nat)
    requires lo <= hi <= |server| && forall i :: lo <= i < hi ==> server[i].id != k
    ensures Fold(x, server[..hi], k) == Fold(x, server[..lo], k)
  {
    if lo < hi {
      FoldSkips(x, server, k, lo, hi - 1);
      assert server[..hi][..hi-1] == server[..hi-1];
    }
  }

  lemma OnlyTwo(server: seq<Entry>, i: nat, j: nat, h: nat)
    requires AtMostTwice(server) && i < j < |server| && h < |server| && h != i && h != j
    requires server[i].id == server[j].id
    ensures server[h].id != server[i].id
  {}

  lemma FoldStep(x: Option<Entry>, server: seq<Entry>, k: string, i: nat)
    requires i < |server| && server[i].id == k
    ensures var before := Fold(x, server[..i], k);
            Fold(x, server[..i+1], k) == if Yields(before, server[i]) then Some(server[i]) else before
  {
    assert server[..i+1][..i] == server[..i];
  }

  // With exactly two entries of an id, a merge is the one and then the other.
  lemma FoldOfTwo(x: Option<Entry>, server: seq<Entry>, k: string, i: nat, j: nat)
    requires i < j < |server| && server[i].id == server[j].id == k
    requires forall h :: 0 <= h < |server| && h != i && h != j ==> server[h].id != k
    ensures var y := if Yields(x, server[i]) then Some(server[i]) else x;
            Fold(x, server, k) == if Yields(y, server[j]) then Some(server[j]) else y
  {
    FoldSkips(x, server, k, 0, i);
    FoldStep(x, server, k, i);
    FoldSkips(x, server, k, i + 1, j);
    FoldStep(x, server, k, j);
    FoldSkips(x, server, k, j + 1, |server|);
    assert server[..|server|] == server && server[..0] == [];
  }

  // For server lists that hold an id at most twice the order is exactly what it takes.
  lemma MergeIdempotentIff(server: seq<Entry>)
    requires AtMostTwice(server)
    ensures (forall local: seq<Entry> :: Merge(Merge(local, server), server) == Merge(local, server)) <==>
            InOrder(server)
  {
    if InOrder(server) {
      forall local: seq<Entry> ensures Merge(Merge(local, server), server) == Merge(local, server) {
        MergeIdempotent(local, server);
      }
    } else {
      var i, j :| 0 <= i < j < |server| && server[i].id == server[j].id &&
                  !server[i].SameContent(server[j]) && server[i].updatedAt > server[j].updatedAt;
      OutOfOrder(server, i, j);
    }
  }

  // A local copy of the newer one, old enough, lets the older one win the first time only.
  lemma OutOfOrder(server: seq<Entry>, i: nat, j: nat)
    requires AtMostTwice(server) && i < j < |server| && server[i].id == server[j].id
    requires !server[i].SameContent(server[j]) && server[i].updatedAt > server[j].updatedAt
    ensures var local := [server[i].(updatedAt := 0)];
            Merge(Merge(local, server), server) != Merge(local, server)
  {
    var k, stale := server[i].id, server[i].(updatedAt := 0);
    var once := Merge([stale], server);
    ByIdSnoc([], stale);
    assert [] + [stale] == [stale];
    MergeById([stale], server);
    MergeById(once, server);
    MergeMapIsFold(ById([stale]), server, k);
    MergeMapIsFold(ById(once), server, k);
    forall h | 0 <= h < |server| && h != i && h != j ensures server[h].id != k { OnlyTwo(server, i, j, h); }
    FoldOfTwo(Some(stale), server, k, i, j);
    FoldOfTwo(Some(server[j]), server, k, i, j);
    assert Under(ById(Merge(once, server)), k) != Under(ById(once), k);
  }

  lemma MergeMapTwo(m: map<string, Entry>, a: Entry, b: Entry)
    ensures MergeMap(m, [a, b]) ==
            var m' := if TakesServer(m, a) then m[a.id := a] else m;
            if TakesServer(m', b) then m'[b.id := b] else m'
  {
    assert [a, b][..1] == [a] && [a][..0] == [];
    assert MergeMap(m, [a][..0]) == m;
  }

  // Without that condition a second merge can undo the first: with a stale local copy of
  // the newer of two disagreeing server entries, the older one wins the first time only.
  lemma RepeatedIdsBreakIdempotence()
    ensures exists local: seq<Entry>, server: seq<Entry> ::
              Merge(Merge(local, server), server) != Merge(local, server)
  {
    var a1 := Entry("x", "a", "", "", "", 1);
    var a5 := a1.(updatedAt := 5);
    var b4 := Entry("x", "b", "", "", "", 4);
    var local, server := [a1], [a5, b4];
    var once := Merge(local, server);
    MergeById(local, server);
    MergeById(once, server);
    ByIdSnoc([], a1);
    assert [] + [a1] == local;
    assert "a" != "b" by { assert "a"[0] != "b"[0]; }
    MergeMapTwo(ById(local), a5, b4);
    assert ById(once) == map["x" := b4];
    MergeMapTwo(ById(once), a5, b4);
    assert ById(Merge(once, server)) == map["x" := a5];
    assert a5.updatedAt != b4.updatedAt;
    assert ById(Merge(once, server))["x"] != ById(once)["x"];
  }

  // ----- the two implementations -----

  class Vault {
    var entries: seq<Entry>

    constructor ()
      ensures entries == []
    {
      entries := [];
    }

    method Add(id: string, service: string, username: string, password: string, notes: string,
               now: nat) returns (e: Entry)
      modifies this
      ensures e == Entry(id, service, username, password, notes, now)
      ensures entries == old(entries) + [e]
    {
      e := Entry(id, service, username, password, notes, now);
      entries := entries + [e];
    }

    method FindByService(service: string) returns (at: Option<nat>)
      ensures at.Some? ==> at.value < |entries| && entries[at.value].service == service &&
                           forall j :: 0 <= j < at.value ==> entries[j].service != service
      ensures at.None? ==> forall j :: 0 <= j < |entries| ==> entries[j].service != service
    {
      for i := 0 to |entries|
        invariant forall j :: 0 <= j < i ==> entries[j].service != service
      {
        if entries[i].service == service { return Some(i); }
      }
      return None;
    }

    method FindById(id: string) returns (at: Option<nat>)
      ensures at.Some? ==> at.value < |entries| && entries[at.value].id == id &&
                           forall j :: 0 <= j < at.value ==> entries[j].id != id
      ensures at.None? ==> forall j :: 0 <= j < |entries| ==> entries[j].id != id
    {
      for i := 0 to |entries|
        invariant forall j :: 0 <= j < i ==> entries[j].id != id
      {
        if entries[i].id == id { return Some(i); }
      }
      return None;
    }

    // The first entry with that service name or, when there is none, with that id.
    method Find(key: string) returns (at: Option<nat>)
      ensures at.Some? ==> at.value < |entries| &&
                           (entries[at.value].service == key || entries[at.value].id == key)
      ensures at.None? <==> forall j :: 0 <= j < |entries| ==>
                              entries[j].service != key && entries[j].id != key
      ensures at.Some? ==>
                if entries[at.value].service == key then
                  forall j :: 0 <= j < at.value ==> entries[j].service != key
                else
                  && (forall j :: 0 <= j < |entries| ==> entries[j].service != key)
                  && (forall j :: 0 <= j < at.value ==> entries[j].id != key)
    {
      at := FindByService(key);
      if at.None? {
        at := FindById(key);
      }
    }

    // Deletes the first entry whose id or service is the key, and only that one.
    method Remove(key: string) returns (removed: bool)
      modifies this
      ensures removed <==>
                exists i :: 0 <= i < |old(entries)| && (old(entries)[i].id == key || old(entries)[i].service == key)
      ensures !removed ==> entries == old(entries)
      ensures removed ==>
                exists i ::
                  && 0 <= i < |old(entries)| && (old(entries)[i].id == key || old(entries)[i].service == key)
                  && (forall j :: 0 <= j < i ==> old(entries)[j].id != key && old(entries)[j].service != key)
                  && entries == old(entries)[..i] + old(entries)[i+1..]
    {
      for i := 0 to |entries|
        invariant entries == old(entries)
        invariant forall j :: 0 <= j < i ==> entries[j].id != key && entries[j].service != key
      {
        if entries[i].id == key || entries[i].service == key {
          entries := entries[..i] + entries[i+1..];
          return true;
        }
      }
      return false;
    }

    method MergeFrom(server: Vault) returns (conflicts: seq<string>)
      modifies this
      ensures entries == Merge(old(entries), old(server.entries))
      ensures conflicts == Conflicts(ById(old(entries)), old(server.entries))
      ensures server != this ==> server.entries == old(server.entries)
    {
      var byId := [];
      for i := 0 to |entries|
        invariant byId == DictOf(entries[..i])
      {
        assert entries[..i+1][..i] == entries[..i];
        byId := Set(byId, entries[i]);
      }
      assert entries[..|entries|] == entries;
      ghost var local := byId;
      ByIdDictOf(entries);
      conflicts := [];
      for i := 0 to |server.entries|
        invariant entries == old(entries) && server.entries == old(server.entries)
        invariant byId == MergeDict(local, server.entries[..i])
        invariant conflicts == Conflicts(ById(local), server.entries[..i])
      {
        var s := server.entries[i];
        MergeSnoc(local, server.entries, i);
        if s.id !in ById(byId) {
          byId := Set(byId, s);
        } else {
          var mine := ById(byId)[s.id];
          var differ := mine.service != s.service || mine.username != s.username ||
                        mine.password != s.password || mine.notes != s.notes;
          if differ {
            conflicts := conflicts + [if s.service != "" then s.service else s.id];
            if s.updatedAt >= mine.updatedAt {
              byId := Set(byId, s);
            }
          }
        }
      }
      assert server.entries[..|server.entries|] == server.entries;
      entries := byId;
    }
  }

  // The C++ vault: the same merge on a hash map, whose iteration order is unspecified.
  class HashVault {
    var entries: seq<Entry>

    constructor ()
      ensures entries == []
    {
      entries := [];
    }

    method MergeFrom(server: HashVault, conflicts: seq<string>) returns (count: nat, conflicts': seq<string>)
      modifies this
      ensures UniqueIds(entries) && ById(entries) == MergeMap(ById(old(entries)), old(server.entries))
      ensures conflicts' == conflicts + Conflicts(ById(old(entries)), old(server.entries))
      ensures count == |Conflicts(ById(old(entries)), old(server.entries))|
    {
      var byId := map[];
      for i := 0 to |entries|
        invariant byId == ById(entries[..i])
      {
        assert entries[..i+1][..i] == entries[..i];
        byId := byId[entries[i].id := entries[i]];
      }
      assert entries[..|entries|] == entries;
      conflicts', count := conflicts, 0;
      ghost var local := byId;
      for i := 0 to |server.entries|
        invariant entries == old(entries) && server.entries == old(server.entries)
        invariant byId == MergeMap(local, server.entries[..i])
        invariant conflicts' == conflicts + Conflicts(local, server.entries[..i])
        invariant count == |Conflicts(local, server.entries[..i])|
      {
        var s := server.entries[i];
        assert server.entries[..i+1][..i] == server.entries[..i];
        if s.id !in byId {
          byId := byId[s.id := s];
        } else {
          var mine := byId[s.id];
          var differ := mine.service != s.service || mine.username != s.username ||
                        mine.password != s.password || mine.notes != s.notes;
          if differ {
            count := count + 1;
            conflicts' := conflicts' + [if s.service == "" then s.id else s.service];
            if s.updatedAt >= mine.updatedAt {
              byId := byId[s.id := s];
            }
          }
        }
      }
      assert server.entries[..|server.entries|] == server.entries;
      MergeMapKeyed(local, old(entries), server.entries);
      entries := Drain(byId);
    }

    // Pushes the values of a hash map into a vector, in whatever order the map yields them.
    static method Drain(byId: map<string, Entry>) returns (es: seq<Entry>)
      requires forall k :: k in byId ==> byId[k].id == k
      ensures UniqueIds(es) && ById(es) == byId
    {
      es := [];
      var left := byId.Keys;
      while left != {}
        invariant left <= byId.Keys
        invariant UniqueIds(es)
        invariant ById(es) == map k | k in byId && k !in left :: byId[k]
        decreases left
      {
        var k :| k in left;
        UniqueSnoc(es, byId[k]);
        ByIdSnoc(es, byId[k]);
        left, es := left - {k}, es + [byId[k]];
      }
    }
  }

  lemma {:induction false} ByIdKeyed(es: seq<Entry>)
    ensures forall k :: k in ById(es) ==> ById(es)[k].id == k
  {
    if es != [] { ByIdKeyed(es[..|es|-1]); }
  }

  lemma {:induction false} MergeMapKeyed(m: map<string, Entry>, es: seq<Entry>, server: seq<Entry>)
    requires m == ById(es)
    ensures forall k :: k in MergeMap(m, server) ==> MergeMap(m, server)[k].id == k
  {
    if server == [] {
      ByIdKeyed(es);
    } else {
      MergeMapKeyed(m, es, server[..|server|-1]);
    }
  }

  // Whatever order the hash map yields, both implementations end with the same entry under
  // every id, and so with the same entries up to order.
  lemma HashMergeAgrees(local: seq<Entry>, server: seq<Entry>, hashed: seq<Entry>)
    requires UniqueIds(hashed) && ById(hashed) == MergeMap(ById(local), server)
    ensures ById(hashed) == ById(Merge(local, server))
    ensures multiset(hashed) == multiset(Merge(local, server))
  {
    MergeById(local, server);
    UniqueListsAgree(hashed, Merge(local, server));
  }

  lemma {:induction false} CountUnique(es: seq<Entry>, x: Entry)
    requires UniqueIds(es)
    ensures multiset(es)[x] == if x.id in ById(es) && ById(es)[x.id] == x then 1 else 0
  {
    if es != [] {
      var init, last := es[..|es|-1], es[|es|-1];
      UniqueInit(es);
      CountUnique(init, x);
      assert es == init + [last];
    }
  }

  lemma UniqueListsAgree(a: seq<Entry>, b: seq<Entry>)
    requires UniqueIds(a) && UniqueIds(b) && ById(a) == ById(b)
    ensures multiset(a) == multiset(b)
  {
    forall x: Entry ensures multiset(a)[x] == multiset(b)[x] {
      CountUnique(a, x);
      CountUnique(b, x);
    }
  }
}
