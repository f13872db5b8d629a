/**
 Ids of the paged vector store (include/disk_vector.h): direct ids and update ids
 are located by two maps, and every located slot has exactly one owner.
 */
module PagedIds {
  import opened IdTypes
  import opened PagedTiers

  /** Ids and owned slots name each other: no slot has two owners, no id two slots. */
  ghost predicate IdsOk(idLoc: map<nat, Loc>, updateLoc: map<nat, Loc>, owner: map<Loc, nat>) {
    && (forall id :: id in idLoc ==> id < UPDATE_ID_BIT && idLoc[id] in owner && owner[idLoc[id]] == id)
    && (forall id :: id in updateLoc ==> id >= UPDATE_ID_BIT && updateLoc[id] in owner && owner[updateLoc[id]] == id)
    && (forall l :: l in owner ==>
          if owner[l] < UPDATE_ID_BIT then owner[l] in idLoc && idLoc[owner[l]] == l
          else owner[l] in updateLoc && updateLoc[owner[l]] == l)
  }

  /** What the ids of one map read back as. */
  ghost function Compose<R>(loc: map<nat, Loc>, want: map<Loc, R>): map<nat, R> {
    map id | id in loc && loc[id] in want :: want[loc[id]]
  }

  ghost function Records<R>(idLoc: map<nat, Loc>, updateLoc: map<nat, Loc>, want: map<Loc, R>): map<nat, R> {
    Compose(idLoc, want) + Compose(updateLoc, want)
  }

  lemma ComposeAdd<R>(loc: map<nat, Loc>, want: map<Loc, R>, id: nat, l: Loc, r: R)
    requires id !in loc && l !in want && forall i :: i in loc ==> loc[i] in want
    ensures Compose(loc[id := l], want[l := r]) == Compose(loc, want)[id := r]
    ensures Compose(loc, want[l := r]) == Compose(loc, want)
  {}

  function Direct(idLoc: map<nat, Loc>, id: nat, l: Loc): map<nat, Loc> {
    if id < UPDATE_ID_BIT then idLoc[id := l] else idLoc
  }

  function Indirect(updateLoc: map<nat, Loc>, id: nat, l: Loc): map<nat, Loc> {
    if id < UPDATE_ID_BIT then updateLoc else updateLoc[id := l]
  }

  /** Publishing the location of a new id at an unowned slot. */
  lemma AssignIds(idLoc: map<nat, Loc>, updateLoc: map<nat, Loc>, owner: map<Loc, nat>, id: nat, l: Loc)
    requires IdsOk(idLoc, updateLoc, owner) && l !in owner
    requires if id < UPDATE_ID_BIT then id !in idLoc else id !in updateLoc
    ensures IdsOk(Direct(idLoc, id, l), Indirect(updateLoc, id, l), owner[l := id])
  {}

  lemma AssignRecords<R>(idLoc: map<nat, Loc>, updateLoc: map<nat, Loc>, owner: map<Loc, nat>, want: map<Loc, R>, id: nat,
                         l: Loc, r: R)
    requires IdsOk(idLoc, updateLoc, owner) && owner.Keys == want.Keys && l !in want
    requires if id < UPDATE_ID_BIT then id !in idLoc else id !in updateLoc
    ensures Records(Direct(idLoc, id, l), Indirect(updateLoc, id, l), want[l := r])
            == Records(idLoc, updateLoc, want)[id := r]
  {
    hide Compose;
    AllWanted(idLoc, updateLoc, owner, want, id);
    if id < UPDATE_ID_BIT {
      ComposeAdd(idLoc, want, id, l, r);
      UnchangedCompose(updateLoc, want, l, r);
      ComposeKeys(updateLoc, want, id);
    } else {
      ComposeAdd(updateLoc, want, id, l, r);
      UnchangedCompose(idLoc, want, l, r);
    }
  }

  lemma AllWanted<R>(idLoc: map<nat, Loc>, updateLoc: map<nat, Loc>, owner: map<Loc, nat>, want: map<Loc, R>, id: nat)
    requires IdsOk(idLoc, updateLoc, owner) && owner.Keys == want.Keys
    ensures forall i :: i in idLoc ==> idLoc[i] in want
    ensures forall i :: i in updateLoc ==> updateLoc[i] in want
    ensures id < UPDATE_ID_BIT ==> id !in updateLoc
  {}

  lemma UnchangedCompose<R>(loc: map<nat, Loc>, want: map<Loc, R>, l: Loc, r: R)
    requires l !in want && forall i :: i in loc ==> loc[i] in want
    ensures Compose(loc, want[l := r]) == Compose(loc, want)
  {}

  lemma ComposeKeys<R>(loc: map<nat, Loc>, want: map<Loc, R>, id: nat)
    requires id !in loc
    ensures id !in Compose(loc, want)
  {}

  /** Another record in the slot of one id. */
  lemma ReassignRecords<R>(idLoc: map<nat, Loc>, updateLoc: map<nat, Loc>, owner: map<Loc, nat>, want: map<Loc, R>,
                           id: nat, r: R)
    requires IdsOk(idLoc, updateLoc, owner) && owner.Keys == want.Keys
    requires if id < UPDATE_ID_BIT then id in idLoc else id in updateLoc
    ensures var l := if id < UPDATE_ID_BIT then idLoc[id] else updateLoc[id];
            Records(idLoc, updateLoc, want[l := r]) == Records(idLoc, updateLoc, want)[id := r]
  {
    var l := if id < UPDATE_ID_BIT then idLoc[id] else updateLoc[id];
    assert l in want && owner[l] == id;
    if id < UPDATE_ID_BIT {
      ReassignCompose(idLoc, owner, want, id, r);
      ForeignCompose(updateLoc, owner, want, l, r);
      assert id !in updateLoc;
    } else {
      ReassignCompose(updateLoc, owner, want, id, r);
      ForeignCompose(idLoc, owner, want, l, r);
    }
  }

  lemma ReassignCompose<R>(loc: map<nat, Loc>, owner: map<Loc, nat>, want: map<Loc, R>, id: nat, r: R)
    requires id in loc && forall i :: i in loc ==> loc[i] in owner && owner[loc[i]] == i
    requires owner.Keys == want.Keys
    ensures Compose(loc, want[loc[id] := r]) == Compose(loc, want)[id := r]
  {}

  lemma ForeignCompose<R>(loc: map<nat, Loc>, owner: map<Loc, nat>, want: map<Loc, R>, l: Loc, r: R)
    requires l in owner && owner[l] !in loc && forall i :: i in loc ==> loc[i] in owner && owner[loc[i]] == i
    requires owner.Keys == want.Keys
    ensures Compose(loc, want[l := r]) == Compose(loc, want)
  {}
}
