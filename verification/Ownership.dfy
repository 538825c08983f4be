/** Workspaces own tabs, tabs own blocks and a layout state: the object store operations that edit
    the id lists. A failed transaction leaves the store as it was. */
module Ownership {
  import opened Basics
  import opened Slices

  type Id = nat

  datatype Tab = Tab(name: string, blockIds: seq<Id>, layoutState: Id)

  /** The tables. Ids below `nextId` may be in use; new ones come from there. */
  datatype Db = Db(workspaces: map<Id, seq<Id>>, tabs: map<Id, Tab>, blocks: map<Id, string>, layouts: set<Id>,
                   nextId: Id)

  // ----- the invariant -----

  /** Every listed id is stored, and every stored id is listed exactly once in exactly one list. */
  ghost predicate Partitioned(lists: map<Id, seq<Id>>, stored: set<Id>) {
    && (forall o :: o in lists ==> NoDups(lists[o]))
    && (forall o, x :: o in lists && x in lists[o] ==> x in stored)
    && (forall o, o', x :: o in lists && o' in lists && x in lists[o] && x in lists[o'] ==> o == o')
    && (forall x :: x in stored ==> exists o :: o in lists && x in lists[o])
  }

  function BlockLists(db: Db): map<Id, seq<Id>> {
    map t | t in db.tabs :: db.tabs[t].blockIds
  }

  ghost predicate LayoutsOk(db: Db) {
    && (forall t :: t in db.tabs ==> db.tabs[t].layoutState in db.layouts)
    && (forall t, t' :: t in db.tabs && t' in db.tabs && db.tabs[t].layoutState == db.tabs[t'].layoutState ==> t == t')
    && (forall l :: l in db.layouts ==> exists t :: t in db.tabs && db.tabs[t].layoutState == l)
  }

  ghost predicate IdsBelow(db: Db) {
    forall x :: x in db.workspaces || x in db.tabs || x in db.blocks || x in db.layouts ==> x < db.nextId
  }

  /** Each stored block is in exactly one tab, once; each stored tab in exactly one workspace, once;
      each tab has its own stored layout state, and there is no other. */
  ghost predicate Inv(db: Db) {
    && Partitioned(BlockLists(db), db.blocks.Keys)
    && Partitioned(db.workspaces, db.tabs.Keys)
    && LayoutsOk(db)
    && IdsBelow(db)
  }

  // ----- lists -----

  lemma AddOwner(lists: map<Id, seq<Id>>, stored: set<Id>, o: Id)
    requires Partitioned(lists, stored) && o !in lists
    ensures Partitioned(lists[o := []], stored)
  {
    var lists' := lists[o := []];
    forall x | x in stored
      ensures exists p :: p in lists' && x in lists'[p]
    {
      var p :| p in lists && x in lists[p];
      assert p in lists' && x in lists'[p];
    }
  }

  lemma DropOwner(lists: map<Id, seq<Id>>, stored: set<Id>, o: Id)
    requires Partitioned(lists, stored) && o in lists && lists[o] == []
    ensures Partitioned(lists - {o}, stored)
  {
    var lists' := lists - {o};
    forall x | x in stored
      ensures exists p :: p in lists' && x in lists'[p]
    {
      var p :| p in lists && x in lists[p];
      assert p in lists' && x in lists'[p];
    }
  }

  lemma AddMember(lists: map<Id, seq<Id>>, stored: set<Id>, o: Id, x: Id)
    requires Partitioned(lists, stored) && o in lists && x !in stored
    ensures Partitioned(lists[o := lists[o] + [x]], stored + {x})
  {
    var lists' := lists[o := lists[o] + [x]];
    AppendWorks(lists[o], x);
    forall y | y in stored + {x}
      ensures exists p :: p in lists' && y in lists'[p]
    {
      if y == x {
        assert o in lists' && x in lists'[o];
      } else {
        var p :| p in lists && y in lists[p];
        assert p in lists' && y in lists'[p];
      }
    }
  }

  lemma RemoveMember(lists: map<Id, seq<Id>>, stored: set<Id>, o: Id, x: Id)
    requires Partitioned(lists, stored) && o in lists && x in lists[o]
    ensures Partitioned(lists[o := RemoveElem(lists[o], x)], stored - {x})
  {
    var lists' := lists[o := RemoveElem(lists[o], x)];
    RemoveElemWorks(lists[o], x);
    forall y | y in stored - {x}
      ensures exists p :: p in lists' && y in lists'[p]
    {
      var p :| p in lists && y in lists[p];
      assert p in lists' && y in lists'[p];
    }
  }

  /** Changing only block lists and blocks leaves the layouts alone. */
  lemma SameTabs(db: Db, db': Db)
    requires LayoutsOk(db) && db'.tabs.Keys == db.tabs.Keys && db'.layouts == db.layouts
    requires forall t :: t in db.tabs ==> db'.tabs[t].layoutState == db.tabs[t].layoutState
    ensures LayoutsOk(db')
  {
  }

  lemma NewLayout(db: Db, db': Db, tab: Id, layout: Id)
    requires LayoutsOk(db) && tab !in db.tabs && layout !in db.layouts
    requires tab in db'.tabs && db'.tabs == db.tabs[tab := db'.tabs[tab]] && db'.tabs[tab].layoutState == layout
    requires db'.layouts == db.layouts + {layout}
    ensures LayoutsOk(db')
  {
    forall l | l in db'.layouts
      ensures exists t :: t in db'.tabs && db'.tabs[t].layoutState == l
    {
      if l == layout {
        assert db'.tabs[tab].layoutState == l;
      } else {
        var t :| t in db.tabs && db.tabs[t].layoutState == l;
        assert db'.tabs[t].layoutState == l;
      }
    }
  }

  lemma GoneLayout(db: Db, db': Db, tab: Id)
    requires LayoutsOk(db) && tab in db.tabs && db'.tabs == db.tabs - {tab}
    requires db'.layouts == db.layouts - {db.tabs[tab].layoutState}
    ensures LayoutsOk(db')
  {
    forall l | l in db'.layouts
      ensures exists t :: t in db'.tabs && db'.tabs[t].layoutState == l
    {
      var t :| t in db.tabs && db.tabs[t].layoutState == l;
      assert t in db'.tabs && db'.tabs[t].layoutState == l;
    }
  }

  // ----- what each operation makes of the tables -----

  function TabAdded(db: Db, workspace: Id, tabId: Id, tab: Tab): Db
    requires workspace in db.workspaces
  {
    db.(workspaces := db.workspaces[workspace := db.workspaces[workspace] + [tabId]], tabs := db.tabs[tabId := tab],
        layouts := db.layouts + {tab.layoutState})
  }

  function WithBlockIds(db: Db, tabId: Id, blockIds: seq<Id>): Db
    requires tabId in db.tabs
  {
    db.(tabs := db.tabs[tabId := db.tabs[tabId].(blockIds := blockIds)])
  }

  function BlockAdded(db: Db, tabId: Id, blockId: Id, def: string): Db
    requires tabId in db.tabs
  {
    WithBlockIds(db, tabId, db.tabs[tabId].blockIds + [blockId]).(blocks := db.blocks[blockId := def])
  }

  function BlockRemoved(db: Db, tabId: Id, blockId: Id): Db
    requires tabId in db.tabs
  {
    WithBlockIds(db, tabId, RemoveElem(db.tabs[tabId].blockIds, blockId)).(blocks := db.blocks - {blockId})
  }

  function TabRemoved(db: Db, workspace: Id, tabId: Id): Db
    requires workspace in db.workspaces && tabId in db.tabs
  {
    db.(workspaces := db.workspaces[workspace := RemoveElem(db.workspaces[workspace], tabId)],
        tabs := db.tabs - {tabId},
        layouts := db.layouts - {db.tabs[tabId].layoutState})
  }

  /** Both tabs are read before either is written. */
  function Moved(db: Db, current: Id, new_: Id, block: Id): Db
    requires current in db.tabs && new_ in db.tabs
  {
    var newIds := db.tabs[new_].blockIds + [block];
    WithBlockIds(WithBlockIds(db, current, RemoveElem(db.tabs[current].blockIds, block)), new_, newIds)
  }

  // ----- the same, table by table -----

  /** ids' is ids without its one x, in the same order. */
  ghost predicate Without(ids: seq<Id>, ids': seq<Id>, x: Id) {
    x !in ids' && exists k :: 0 <= k < |ids| && ids[k] == x && ids' == ids[..k] + ids[k + 1..]
  }

  /** A new tab, empty and with its own layout state, is the last of its workspace. */
  ghost predicate TabIsNew(db: Db, db': Db, workspace: Id, tabId: Id, name: string) {
    && workspace in db.workspaces && tabId !in db.tabs && tabId in db'.tabs
    && db'.workspaces == db.workspaces[workspace := db.workspaces[workspace] + [tabId]]
    && db'.tabs[tabId].name == name && db'.tabs[tabId].blockIds == []
    && db'.tabs - {tabId} == db.tabs && db'.blocks == db.blocks
    && db'.tabs[tabId].layoutState !in db.layouts && db'.layouts == db.layouts + {db'.tabs[tabId].layoutState}
  }

  /** A new block with its definition is the last of its tab. */
  ghost predicate BlockIsNew(db: Db, db': Db, tabId: Id, blockId: Id, def: string) {
    && tabId in db.tabs && tabId in db'.tabs && blockId !in db.blocks && blockId in db'.blocks
    && db'.blocks[blockId] == def && db'.blocks - {blockId} == db.blocks
    && db'.tabs - {tabId} == db.tabs - {tabId}
    && db'.tabs[tabId] == db.tabs[tabId].(blockIds := db.tabs[tabId].blockIds + [blockId])
    && db'.workspaces == db.workspaces && db'.layouts == db.layouts
  }

  /** The block is gone, from its tab and from the table. */
  ghost predicate BlockIsGone(db: Db, db': Db, tabId: Id, blockId: Id) {
    && tabId in db.tabs && tabId in db'.tabs
    && db'.blocks == db.blocks - {blockId} && db'.tabs - {tabId} == db.tabs - {tabId}
    && db'.tabs[tabId] == db.tabs[tabId].(blockIds := db'.tabs[tabId].blockIds)
    && Without(db.tabs[tabId].blockIds, db'.tabs[tabId].blockIds, blockId)
    && db'.workspaces == db.workspaces && db'.layouts == db.layouts
  }

  /** The tab is gone, with its layout state, from its workspace and from the table. */
  ghost predicate TabIsGone(db: Db, db': Db, workspace: Id, tabId: Id) {
    && workspace in db.workspaces && workspace in db'.workspaces && tabId in db.tabs
    && db'.tabs == db.tabs - {tabId} && db'.layouts == db.layouts - {db.tabs[tabId].layoutState}
    && db'.workspaces - {workspace} == db.workspaces - {workspace}
    && Without(db.workspaces[workspace], db'.workspaces[workspace], tabId)
    && db'.blocks == db.blocks
  }

  /** The block is the last of its new tab and no longer in the old one. */
  ghost predicate BlockIsMoved(db: Db, db': Db, current: Id, new_: Id, blockId: Id) {
    && current in db.tabs && new_ in db.tabs && current in db'.tabs && new_ in db'.tabs
    && db'.tabs - {current, new_} == db.tabs - {current, new_}
    && db'.tabs[current] == db.tabs[current].(blockIds := db'.tabs[current].blockIds)
    && Without(db.tabs[current].blockIds, db'.tabs[current].blockIds, blockId)
    && db'.tabs[new_] == db.tabs[new_].(blockIds := db.tabs[new_].blockIds + [blockId])
    && db'.workspaces == db.workspaces && db'.layouts == db.layouts && db'.blocks == db.blocks
  }

  lemma RemoveIsWithout(ids: seq<Id>, x: Id)
    requires NoDups(ids) && x in ids
    ensures Without(ids, RemoveElem(ids, x), x)
  {
    RemoveElemWorks(ids, x);
    var k :| 0 <= k < |ids| && ids[k] == x;
    assert RemoveElem(ids, x) == ids[..k] + ids[k + 1..];
  }

  lemma NoDupsOf(lists: map<Id, seq<Id>>, stored: set<Id>, o: Id)
    requires Partitioned(lists, stored) && o in lists
    ensures NoDups(lists[o])
  {
  }

  lemma TabAddedIsNew(db: Db, workspace: Id, tabId: Id, name: string, layout: Id)
    requires workspace in db.workspaces && tabId !in db.tabs && layout !in db.layouts
    ensures TabIsNew(db, TabAdded(db, workspace, tabId, Tab(name, [], layout)), workspace, tabId, name)
  {
  }

  lemma BlockAddedIsNew(db: Db, tabId: Id, blockId: Id, def: string)
    requires tabId in db.tabs && blockId !in db.blocks
    ensures BlockIsNew(db, BlockAdded(db, tabId, blockId, def), tabId, blockId, def)
  {
  }

  lemma BlockRemovedIsGone(db: Db, tabId: Id, blockId: Id)
    requires Inv(db) && tabId in db.tabs && blockId in db.tabs[tabId].blockIds
    ensures BlockIsGone(db, BlockRemoved(db, tabId, blockId), tabId, blockId)
  {
    NoDupsOf(BlockLists(db), db.blocks.Keys, tabId);
    RemoveIsWithout(db.tabs[tabId].blockIds, blockId);
    hide Partitioned, LayoutsOk, Without, RemoveElem;
  }

  lemma TabRemovedIsGone(db: Db, workspace: Id, tabId: Id)
    requires Inv(db) && workspace in db.workspaces && tabId in db.tabs && tabId in db.workspaces[workspace]
    ensures TabIsGone(db, TabRemoved(db, workspace, tabId), workspace, tabId)
  {
    NoDupsOf(db.workspaces, db.tabs.Keys, workspace);
    RemoveIsWithout(db.workspaces[workspace], tabId);
    hide Partitioned, LayoutsOk, Without, RemoveElem;
  }

  lemma MovedIsMoved(db: Db, current: Id, new_: Id, blockId: Id)
    requires Inv(db) && current in db.tabs && new_ in db.tabs && current != new_
    requires blockId in db.tabs[current].blockIds
    ensures BlockIsMoved(db, Moved(db, current, new_, blockId), current, new_, blockId)
  {
    NoDupsOf(BlockLists(db), db.blocks.Keys, current);
    RemoveIsWithout(db.tabs[current].blockIds, blockId);
    hide Partitioned, LayoutsOk, Without, RemoveElem;
  }

  lemma TabAddedKeepsInv(db: Db, workspace: Id, tabId: Id, name: string, layout: Id)
    requires Inv(db) && workspace in db.workspaces
    requires tabId < db.nextId && layout < db.nextId && tabId !in db.tabs && layout !in db.layouts
    ensures Inv(TabAdded(db, workspace, tabId, Tab(name, [], layout)))
  {
    hide Partitioned, LayoutsOk;
    var db' := TabAdded(db, workspace, tabId, Tab(name, [], layout));
    AddOwner(BlockLists(db), db.blocks.Keys, tabId);
    assert BlockLists(db') == BlockLists(db)[tabId := []];
    AddMember(db.workspaces, db.tabs.Keys, workspace, tabId);
    assert db'.tabs.Keys == db.tabs.Keys + {tabId};
    NewLayout(db, db', tabId, layout);
  }

  lemma BlockAddedKeepsInv(db: Db, tabId: Id, blockId: Id, def: string)
    requires Inv(db) && tabId in db.tabs && blockId < db.nextId && blockId !in db.blocks
    ensures Inv(BlockAdded(db, tabId, blockId, def))
  {
    hide Partitioned, LayoutsOk;
    var db' := BlockAdded(db, tabId, blockId, def);
    AddMember(BlockLists(db), db.blocks.Keys, tabId, blockId);
    assert BlockLists(db') == BlockLists(db)[tabId := BlockLists(db)[tabId] + [blockId]];
    assert db'.blocks.Keys == db.blocks.Keys + {blockId};
    hide NoDups;
    SameTabs(db, db');
  }

  lemma BlockRemovedKeepsInv(db: Db, tabId: Id, blockId: Id)
    requires Inv(db) && tabId in db.tabs && blockId in db.tabs[tabId].blockIds
    ensures Inv(BlockRemoved(db, tabId, blockId))
  {
    hide Partitioned, LayoutsOk;
    var db' := BlockRemoved(db, tabId, blockId);
    RemoveMember(BlockLists(db), db.blocks.Keys, tabId, blockId);
    assert BlockLists(db') == BlockLists(db)[tabId := RemoveElem(BlockLists(db)[tabId], blockId)];
    assert db'.blocks.Keys == db.blocks.Keys - {blockId};
    SameTabs(db, db');
  }

  lemma TabRemovedKeepsInv(db: Db, workspace: Id, tabId: Id)
    requires Inv(db) && workspace in db.workspaces && tabId in db.tabs
    requires tabId in db.workspaces[workspace] && db.tabs[tabId].blockIds == []
    ensures Inv(TabRemoved(db, workspace, tabId))
  {
    hide Partitioned, LayoutsOk;
    var db' := TabRemoved(db, workspace, tabId);
    DropOwner(BlockLists(db), db.blocks.Keys, tabId);
    assert BlockLists(db') == BlockLists(db) - {tabId};
    RemoveMember(db.workspaces, db.tabs.Keys, workspace, tabId);
    assert db'.tabs.Keys == db.tabs.Keys - {tabId};
    GoneLayout(db, db', tabId);
  }

  /** A move keeps the graph intact exactly when the two tabs differ; otherwise the block is listed twice. */
  lemma MoveKeepsInvIff(db: Db, current: Id, new_: Id, block: Id)
    requires Inv(db) && current in db.tabs && new_ in db.tabs && block in db.tabs[current].blockIds
    ensures Inv(Moved(db, current, new_, block)) <==> current != new_
  {
    hide Partitioned, LayoutsOk;
    var db', lists := Moved(db, current, new_, block), BlockLists(db);
    if current == new_ {
      ListedTwice(lists[current], block);
      assert BlockLists(db')[current] == lists[current] + [block];
      NeedsNoDups(BlockLists(db'), db'.blocks.Keys, current);
    } else {
      RemoveMember(lists, db.blocks.Keys, current, block);
      var removed := lists[current := RemoveElem(lists[current], block)];
      ListedIsStored(lists, db.blocks.Keys, current, block);
      AddMember(removed, db.blocks.Keys - {block}, new_, block);
      assert db.blocks.Keys - {block} + {block} == db.blocks.Keys;
      assert BlockLists(db') == removed[new_ := removed[new_] + [block]];
      SameTabs(db, db');
    }
  }

  /** In the smallest case: one tab with one block, moved to where it is. */
  lemma SelfMoveDuplicates(db: Db, tab: Id, block: Id)
    requires tab in db.tabs && db.tabs[tab].blockIds == [block]
    ensures Moved(db, tab, tab, block).tabs[tab].blockIds == [block, block]
  {
  }

  lemma ListedTwice(ids: seq<Id>, x: Id)
    requires x in ids
    ensures !NoDups(ids + [x])
  {
    AppendWorks(ids, x);
  }

  lemma NeedsNoDups(lists: map<Id, seq<Id>>, stored: set<Id>, o: Id)
    requires o in lists && !NoDups(lists[o])
    ensures !Partitioned(lists, stored)
  {
  }

  lemma ListedIsStored(lists: map<Id, seq<Id>>, stored: set<Id>, o: Id, x: Id)
    requires Partitioned(lists, stored) && o in lists && x in lists[o]
    ensures x in stored
  {
  }

  // ----- the operations -----

  datatype StoreError = WorkspaceNotFound | TabNotFound | TabHasBlocks | BlockNotFound | TxFailed

  /** `commits` tells whether the transaction around an operation goes through. */
  class Store {
    var workspaces: map<Id, seq<Id>>
    var tabs: map<Id, Tab>
    var blocks: map<Id, string>
    var layouts: set<Id>
    var nextId: Id

    function Now(): Db
      reads this
    {
      Db(workspaces, tabs, blocks, layouts, nextId)
    }

    constructor ()
      ensures Inv(Now()) && Now() == Db(map[], map[], map[], {}, 0)
    {
      workspaces, tabs, blocks, layouts, nextId := map[], map[], map[], {}, 0;
    }

    /** uuid.NewString */
    method NewId() returns (id: Id)
      requires Inv(Now())
      modifies this`nextId
      ensures Inv(Now()) && id == old(nextId) && nextId == old(nextId) + 1
      ensures id !in workspaces && id !in tabs && id !in blocks && id !in layouts
    {
      hide Partitioned, LayoutsOk;
      id := nextId;
      nextId := nextId + 1;
      assert BlockLists(Now()) == BlockLists(old(Now()));
      SameTabs(old(Now()), Now());
    }

    /** CreateWorkspace */
    method CreateWorkspace() returns (id: Id)
      requires Inv(Now())
      modifies this
      ensures Inv(Now()) && id !in old(workspaces)
      ensures Now() == old(Now()).(workspaces := old(workspaces)[id := []], nextId := nextId)
    {
      hide Partitioned, LayoutsOk;
      id := NewId();
      ghost var before := Now();
      AddOwner(workspaces, tabs.Keys, id);
      workspaces := workspaces[id := []];
      assert BlockLists(Now()) == BlockLists(before);
      SameTabs(before, Now());
    }

    /** CreateTab */
    method CreateTab(workspaceId: Id, name: string, commits: bool) returns (r: Option<Id>, err: Option<StoreError>)
      requires Inv(Now())
      modifies this
      ensures Inv(Now())
      ensures err == if workspaceId !in old(workspaces) then Some(WorkspaceNotFound)
                     else if commits then None else Some(TxFailed)
      ensures err.Some? ==> r == None && Now() == old(Now()).(nextId := nextId)
      ensures err.None? ==>
                && r.Some? && r.value !in old(tabs) && r.value in tabs && tabs[r.value].layoutState !in old(layouts)
                && Now() == TabAdded(old(Now()), workspaceId, r.value,
                    Tab(name, [], tabs[r.value].layoutState)).(nextId := nextId)
      ensures err.None? ==> TabIsNew(old(Now()), Now(), workspaceId, r.value, name)
    {
      hide Inv;
      if workspaceId !in workspaces {
        return None, Some(WorkspaceNotFound);
      }
      var layoutStateId := NewId();
      var tabId := NewId();
      if !commits {
        return None, Some(TxFailed);
      }
      TabAddedKeepsInv(Now(), workspaceId, tabId, name, layoutStateId);
      TabAddedIsNew(Now(), workspaceId, tabId, name, layoutStateId);
      hide TabIsNew;
      workspaces := workspaces[workspaceId := workspaces[workspaceId] + [tabId]];
      tabs := tabs[tabId := Tab(name, [], layoutStateId)];
      layouts := layouts + {layoutStateId};
      return Some(tabId), None;
    }

    /** CreateBlock */
    method CreateBlock(tabId: Id, blockDef: string, commits: bool) returns (r: Option<Id>, err: Option<StoreError>)
      requires Inv(Now())
      modifies this
      ensures Inv(Now())
      ensures err == if tabId !in old(tabs) then Some(TabNotFound) else if commits then None else Some(TxFailed)
      ensures err.Some? ==> r == None && Now() == old(Now()).(nextId := nextId)
      ensures err.None? ==>
                && r.Some? && r.value !in old(blocks)
                && Now() == BlockAdded(old(Now()), tabId, r.value, blockDef).(nextId := nextId)
      ensures err.None? ==> BlockIsNew(old(Now()), Now(), tabId, r.value, blockDef)
    {
      hide Inv;
      if tabId !in tabs {
        return None, Some(TabNotFound);
      }
      var blockId := NewId();
      if !commits {
        return None, Some(TxFailed);
      }
      BlockAddedKeepsInv(Now(), tabId, blockId, blockDef);
      BlockAddedIsNew(Now(), tabId, blockId, blockDef);
      blocks := blocks[blockId := blockDef];
      tabs := tabs[tabId := tabs[tabId].(blockIds := tabs[tabId].blockIds + [blockId])];
      return Some(blockId), None;
    }

    /** DeleteBlock */
    method DeleteBlock(tabId: Id, blockId: Id, commits: bool) returns (err: Option<StoreError>)
      requires Inv(Now())
      modifies this
      ensures Inv(Now())
      ensures err == if tabId !in old(tabs) then Some(TabNotFound) else if commits then None else Some(TxFailed)
      ensures Now() == if err.Some? || blockId !in old(tabs)[tabId].blockIds then old(Now())
                       else BlockRemoved(old(Now()), tabId, blockId)
      ensures err.None? && blockId in old(tabs)[tabId].blockIds ==> BlockIsGone(old(Now()), Now(), tabId, blockId)
    {
      hide Inv, BlockIsGone;
      if tabId !in tabs {
        return Some(TabNotFound);
      }
      if !commits {
        return Some(TxFailed);
      }
      var blockIds := tabs[tabId].blockIds;
      var blockIdx := IndexOf(blockIds, blockId);
      if blockIdx == -1 {
        return None;
      }
      BlockRemovedKeepsInv(Now(), tabId, blockId);
      BlockRemovedIsGone(Now(), tabId, blockId);
      tabs := tabs[tabId := tabs[tabId].(blockIds := blockIds[..blockIdx] + blockIds[blockIdx + 1..])];
      blocks := blocks - {blockId};
      return None;
    }

    /** DeleteTab: only an empty tab goes, and its layout state with it. */
    method DeleteTab(workspaceId: Id, tabId: Id, commits: bool) returns (err: Option<StoreError>)
      requires Inv(Now())
      modifies this
      ensures Inv(Now())
      ensures err == if workspaceId !in old(workspaces) then Some(WorkspaceNotFound)
                     else if tabId !in old(tabs) then Some(TabNotFound)
                     else if old(tabs)[tabId].blockIds != [] then Some(TabHasBlocks)
                     else if commits then None else Some(TxFailed)
      ensures Now() == if err.Some? || tabId !in old(workspaces)[workspaceId] then old(Now())
                       else TabRemoved(old(Now()), workspaceId, tabId)
      ensures err.None? && tabId in old(workspaces)[workspaceId] ==> TabIsGone(old(Now()), Now(), workspaceId, tabId)
    {
      hide Inv, TabIsGone;
      if workspaceId !in workspaces {
        return Some(WorkspaceNotFound);
      }
      if tabId !in tabs {
        return Some(TabNotFound);
      }
      var tab := tabs[tabId];
      if |tab.blockIds| != 0 {
        return Some(TabHasBlocks);
      }
      if !commits {
        return Some(TxFailed);
      }
      var tabIds := workspaces[workspaceId];
      var tabIdx := IndexOf(tabIds, tabId);
      if tabIdx == -1 {
        return None;
      }
      TabRemovedKeepsInv(Now(), workspaceId, tabId);
      TabRemovedIsGone(Now(), workspaceId, tabId);
      workspaces := workspaces[workspaceId := tabIds[..tabIdx] + tabIds[tabIdx + 1..]];
      tabs := tabs - {tabId};
      layouts := layouts - {tab.layoutState};
      return None;
    }

    /** MoveBlockToTab */
    method MoveBlockToTab(currentTabId: Id, newTabId: Id, blockId: Id, commits: bool) returns (err: Option<StoreError>)
      modifies this
      ensures err == if currentTabId !in old(tabs) || newTabId !in old(tabs) then Some(TabNotFound)
                     else if blockId !in old(tabs)[currentTabId].blockIds then Some(BlockNotFound)
                     else if commits then None else Some(TxFailed)
      ensures Now() == if err.Some? then old(Now()) else Moved(old(Now()), currentTabId, newTabId, blockId)
      ensures old(Inv(Now())) ==> (Inv(Now()) <==> err.Some? || currentTabId != newTabId)
      ensures old(Inv(Now())) && err.None? && currentTabId != newTabId ==>
                BlockIsMoved(old(Now()), Now(), currentTabId, newTabId, blockId)
    {
      hide Inv, BlockIsMoved;
      if currentTabId !in tabs {
        return Some(TabNotFound);
      }
      if newTabId !in tabs {
        return Some(TabNotFound);
      }
      var currentTab, newTab := tabs[currentTabId], tabs[newTabId];
      var blockIdx := IndexOf(currentTab.blockIds, blockId);
      if blockIdx == -1 {
        return Some(BlockNotFound);
      }
      if !commits {
        return Some(TxFailed);
      }
      if Inv(Now()) {
        MoveKeepsInvIff(Now(), currentTabId, newTabId, blockId);
        if currentTabId != newTabId {
          MovedIsMoved(Now(), currentTabId, newTabId, blockId);
        }
      }
      currentTab := currentTab.(blockIds := RemoveElem(currentTab.blockIds, blockId));
      newTab := newTab.(blockIds := newTab.blockIds + [blockId]);
      tabs := tabs[currentTabId := currentTab];
      tabs := tabs[newTabId := newTab];
      return None;
    }
  }

  lemma LastGoes(ids: seq<Id>, x: Id, ids': seq<Id>)
    requires x !in ids && Without(ids + [x], ids', x)
    ensures ids' == ids
  {
    var k :| 0 <= k < |ids + [x]| && (ids + [x])[k] == x && ids' == (ids + [x])[..k] + (ids + [x])[k + 1..];
    assert k == |ids|;
  }

  lemma SameAt<V>(m: map<Id, V>, m': map<Id, V>, k: Id)
    requires k in m && k in m' && m[k] == m'[k] && m - {k} == m' - {k}
    ensures m == m'
  {
    assert forall x :: x != k ==> (x in m <==> x in m - {k}) && (x in m' <==> x in m' - {k});
    assert forall x :: x != k && x in m ==> m[x] == (m - {k})[x] == (m' - {k})[x] == m'[x];
  }

  lemma NewThenGoneBlock(a: Db, b: Db, c: Db, tabId: Id, blockId: Id, def: string)
    requires BlockIsNew(a, b, tabId, blockId, def) && BlockIsGone(b, c, tabId, blockId)
    requires blockId !in a.tabs[tabId].blockIds
    ensures c == a.(nextId := c.nextId)
  {
    hide Without;
    LastGoes(a.tabs[tabId].blockIds, blockId, c.tabs[tabId].blockIds);
    SameAt(a.tabs, c.tabs, tabId);
  }

  lemma NewThenGoneTab(a: Db, b: Db, c: Db, workspace: Id, tabId: Id, name: string)
    requires TabIsNew(a, b, workspace, tabId, name) && TabIsGone(b, c, workspace, tabId)
    requires tabId !in a.workspaces[workspace]
    ensures c == a.(nextId := c.nextId)
  {
    hide Without;
    LastGoes(a.workspaces[workspace], tabId, c.workspaces[workspace]);
    SameAt(a.workspaces, c.workspaces, workspace);
    assert c.layouts == a.layouts;
  }

  lemma NotListed(lists: map<Id, seq<Id>>, stored: set<Id>, o: Id)
    requires Partitioned(lists, stored) && o in lists
    ensures forall x :: x in lists[o] ==> x in stored
  {
  }

  /** A block that is created and deleted again leaves no trace but its id. */
  method CreateThenDeleteBlock(s: Store, tabId: Id, blockDef: string)
    requires Inv(s.Now()) && tabId in s.tabs
    modifies s
    ensures s.Now() == old(s.Now()).(nextId := s.nextId)
  {
    NotListed(BlockLists(s.Now()), s.blocks.Keys, tabId);
    hide Inv, Without, BlockAdded, BlockRemoved, BlockIsGone;
    var r, err := s.CreateBlock(tabId, blockDef, true);
    ghost var mid := s.Now();
    var _ := s.DeleteBlock(tabId, r.value, true);
    NewThenGoneBlock(old(s.Now()), mid, s.Now(), tabId, r.value, blockDef);
  }

  /** And neither does a tab, with its layout state. */
  method CreateThenDeleteTab(s: Store, workspaceId: Id, name: string)
    requires Inv(s.Now()) && workspaceId in s.workspaces
    modifies s
    ensures s.Now() == old(s.Now()).(nextId := s.nextId)
  {
    NotListed(s.workspaces, s.tabs.Keys, workspaceId);
    hide Inv, Without, TabAdded, TabRemoved, TabIsGone;
    var r, err := s.CreateTab(workspaceId, name, true);
    ghost var mid := s.Now();
    assert mid.tabs[r.value].blockIds == [] && r.value in mid.workspaces[workspaceId];
    var _ := s.DeleteTab(workspaceId, r.value, true);
    NewThenGoneTab(old(s.Now()), mid, s.Now(), workspaceId, r.value, name);
  }

  // ----- runs -----

  datatype Op =
    | MakeWorkspace
    | MakeTab(workspace: Id, name: string, commits: bool)
    | MakeBlock(tab: Id, def: string, commits: bool)
    | DropBlock(tab: Id, block: Id, commits: bool)
    | DropTab(workspace: Id, tab: Id, commits: bool)
    | Move(current: Id, new_: Id, block: Id, commits: bool)

  /** Every run in which no block is moved to its own tab keeps the graph intact, whatever fails. */
  method Run(ops: seq<Op>) returns (store: Store)
    requires forall i :: 0 <= i < |ops| && ops[i].Move? ==> ops[i].current != ops[i].new_
    ensures fresh(store) && Inv(store.Now())
  {
    hide Inv;
    store := new Store();
    for i := 0 to |ops|
      invariant fresh(store) && Inv(store.Now())
    {
      match ops[i]
      case MakeWorkspace =>
        var _ := store.CreateWorkspace();
      case MakeTab(w, name, c) =>
        var _, _ := store.CreateTab(w, name, c);
      case MakeBlock(t, def, c) =>
        var _, _ := store.CreateBlock(t, def, c);
      case DropBlock(t, b, c) =>
        var _ := store.DeleteBlock(t, b, c);
      case DropTab(w, t, c) =>
        var _ := store.DeleteTab(w, t, c);
      case Move(cur, new_, b, c) =>
        var _ := store.MoveBlockToTab(cur, new_, b, c);
    }
  }
}
