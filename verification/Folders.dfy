/**
 Folders and their deletion: the folders below one folder, deleting them with it, or handing its
 contents to another folder first. One project's folders; the store's operations succeed.
 */
module Folders {
  import opened Wrappers
  import opened Text

  /** folder -> parent, None for the project root */
  type FolderMap = map<string, Option<string>>

  /** `workflows` says in which folder each workflow is. */
  datatype State = State(folders: FolderMap, workflows: map<string, Option<string>>)

  const ROOT: string := "0"

  // ---------------------------------------------------------------- parent chains

  predicate IsChain(folders: FolderMap, chain: seq<string>) {
    && chain != [] && (forall id | id in chain :: id in folders)
    && forall i | 0 <= i < |chain| - 1 :: folders[chain[i]] == Some(chain[i + 1])
  }

  ghost predicate Reaches(folders: FolderMap, id: string, ancestor: string) {
    exists chain :: IsChain(folders, chain) && chain[0] == id && chain[|chain| - 1] == ancestor
  }

  /** The folders whose parent chain reaches this one, itself included if it exists. */
  ghost function Below(folders: FolderMap, root: string): set<string> {
    set id | id in folders && Reaches(folders, id, root)
  }

  ghost predicate Rooted(folders: FolderMap, id: string) {
    exists chain :: IsChain(folders, chain) && chain[0] == id && folders[chain[|chain| - 1]] == None
  }

  /** Every parent exists and no chain is cyclic: each leads to the project root. */
  ghost predicate Forest(folders: FolderMap) {
    forall id | id in folders :: Rooted(folders, id)
  }

  /** Every workflow is in a folder that exists, or at the project root. */
  predicate Placed(s: State) {
    forall w | w in s.workflows && s.workflows[w].Some? :: s.workflows[w].value in s.folders
  }

  lemma ReachesItself(folders: FolderMap, id: string)
    requires id in folders
    ensures Reaches(folders, id, id)
  {
    assert IsChain(folders, [id]) && [id][0] == id && [id][|[id]| - 1] == id;
  }

  lemma ChildReaches(folders: FolderMap, child: string, parent: string, root: string)
    requires child in folders && folders[child] == Some(parent) && Reaches(folders, parent, root)
    ensures Reaches(folders, child, root)
  {
    var chain :| IsChain(folders, chain) && chain[0] == parent && chain[|chain| - 1] == root;
    var longer := [child] + chain;
    assert IsChain(folders, longer) && longer[0] == child && longer[|longer| - 1] == root;
  }

  /** A set that holds the end of a chain and, with each folder, its children, holds the start. */
  lemma {:induction false} ClosedUnderChildren(folders: FolderMap, ids: set<string>, chain: seq<string>)
    requires IsChain(folders, chain) && chain[|chain| - 1] in ids
    requires forall child | child in folders && folders[child].Some? && folders[child].value in ids :: child in ids
    ensures chain[0] in ids
    decreases |chain|
  {
    if |chain| > 1 {
      ClosedUnderChildren(folders, ids, chain[1..]);
      assert folders[chain[0]] == Some(chain[1]);
    }
  }

  /** A set closed under parents, without a folder at the project root, leads nowhere. */
  lemma {:induction false} ClosedUnderParents(folders: FolderMap, ids: set<string>, chain: seq<string>)
    requires IsChain(folders, chain) && chain[0] in ids
    requires forall id | id in ids && id in folders :: folders[id].Some? && folders[id].value in ids
    ensures folders[chain[|chain| - 1]].Some?
    decreases |chain|
  {
    if |chain| > 1 {
      assert folders[chain[0]] == Some(chain[1]);
      ClosedUnderParents(folders, ids, chain[1..]);
    }
  }

  // ---------------------------------------------------------------- the folders below one

  type Children = map<string, seq<string>>

  function ChildrenOf(children: Children, id: string): seq<string> {
    if id in children then children[id] else []
  }

  method IndexChildren(folders: FolderMap) returns (children: Children)
    ensures forall parent, id :: id in ChildrenOf(children, parent) <==> id in folders && folders[id] == Some(parent)
  {
    children := map[];
    assert forall parent :: ChildrenOf(children, parent) == [];
    var ids := folders.Keys;
    while ids != {}
      invariant ids <= folders.Keys
      invariant forall parent, id :: id in ChildrenOf(children, parent) <==>
        id in folders && id !in ids && folders[id] == Some(parent)
      decreases |ids|
    {
      var id :| id in ids;
      if folders[id].Some? {
        var parent := folders[id].value;
        ghost var before := children;
        children := children[parent := ChildrenOf(children, parent) + [id]];
        assert forall p ::
          ChildrenOf(children, p) == (if p == parent then ChildrenOf(before, p) + [id] else ChildrenOf(before, p));
      }
      ids := ids - {id};
    }
  }

  /** A search with a stack, also over cyclic parents: exactly the folders below, if the root exists. */
  method FolderAndDescendants(folders: FolderMap, root: string) returns (found: set<string>)
    ensures found == if root == "" || root !in folders then {} else Below(folders, root)
  {
    found := {};
    if root == "" || root !in folders {
      return;
    }
    var children := IndexChildren(folders);
    var stack := [root];
    ReachesItself(folders, root);
    while stack != []
      invariant found <= folders.Keys && (root in found || root in stack)
      invariant forall id | id in found || id in stack :: id in folders && Reaches(folders, id, root)
      invariant forall child | child in folders && folders[child].Some? && folders[child].value in found ::
        child in found || child in stack
      decreases folders.Keys - found, |stack|
    {
      var current := stack[|stack| - 1];
      assert stack == stack[..|stack| - 1] + [current];
      stack := stack[..|stack| - 1];
      if current in found {
        continue;
      }
      found := found + {current};
      forall child | child in ChildrenOf(children, current)
        ensures Reaches(folders, child, root)
      {
        ChildReaches(folders, child, current, root);
      }
      stack := stack + ChildrenOf(children, current);
    }
    forall id | id in Below(folders, root)
      ensures id in found
    {
      var chain :| IsChain(folders, chain) && chain[0] == id && chain[|chain| - 1] == root;
      ClosedUnderChildren(folders, found, chain);
    }
  }

  // ---------------------------------------------------------------- deleting a folder

  /** What was in one of the folders is in the destination. */
  function Unfiled(parents: FolderMap, from: set<string>, dest: Option<string>): FolderMap {
    map x | x in parents :: if parents[x].Some? && parents[x].value in from then dest else parents[x]
  }

  /** The folder and all below it go; their workflows move to the project root. */
  ghost function Cascade(s: State, folder: string): State {
    var gone := Below(s.folders, folder);
    State(s.folders - gone, Unfiled(s.workflows, gone, None))
  }

  /** What is directly in the folder moves to the destination, and the folder goes. */
  function Transfer(s: State, folder: string, dest: Option<string>): State {
    State(Unfiled(s.folders, {folder}, dest) - {folder}, Unfiled(s.workflows, {folder}, dest))
  }

  ghost function Deleted(s: State, folder: string, transferTo: string): State {
    if transferTo == "" then Cascade(s, folder)
    else Transfer(s, folder, if transferTo == ROOT then None else Some(transferTo))
  }

  class FolderStore {
    var folders: FolderMap
    var workflows: map<string, Option<string>>

    ghost function Model(): State
      reads this
    {
      State(folders, workflows)
    }

    constructor (folders: FolderMap, workflows: map<string, Option<string>>)
      ensures Model() == State(folders, workflows)
    {
      this.folders, this.workflows := folders, workflows;
    }

    /** Moves all workflows that are in one folder. */
    method MoveWorkflows(folder: string, dest: Option<string>)
      modifies this`workflows
      ensures workflows == Unfiled(old(workflows), {folder}, dest)
    {
      var ids := set w | w in workflows && workflows[w] == Some(folder);
      while ids != {}
        invariant ids <= workflows.Keys == old(workflows).Keys
        invariant forall w | w in ids :: old(workflows)[w] == Some(folder)
        invariant forall w | w in workflows ::
          workflows[w] == (if old(workflows)[w] == Some(folder) && w !in ids then dest else old(workflows)[w])
        invariant forall w | w in workflows && old(workflows)[w] == Some(folder) :: w in ids || workflows[w] == dest
        decreases |ids|
      {
        var w :| w in ids;
        workflows := workflows[w := dest];
        ids := ids - {w};
      }
    }

    /** Any order of the folders. */
    method EmptyFolders(from: set<string>)
      modifies this`workflows
      ensures workflows == Unfiled(old(workflows), from, None)
    {
      var rest := from;
      while rest != {}
        invariant rest <= from && workflows == Unfiled(old(workflows), from - rest, None)
        decreases |rest|
      {
        var id :| id in rest;
        MoveWorkflows(id, None);
        rest := rest - {id};
      }
    }

    /** Deletes folders in any order, all but one. */
    method DeleteAll(from: set<string>, but: string)
      modifies this`folders
      ensures folders == old(folders) - (from - {but})
    {
      var rest := from;
      while rest != {}
        invariant rest <= from && folders == old(folders) - (from - rest - {but})
        decreases |rest|
      {
        var id :| id in rest;
        if id != but {
          folders := folders - {id};
        }
        rest := rest - {id};
      }
    }

    method MoveChildren(folder: string, dest: Option<string>)
      modifies this`folders
      ensures folders == Unfiled(old(folders), {folder}, dest)
    {
      var rest := folders.Keys;
      while rest != {}
        invariant rest <= folders.Keys == old(folders).Keys
        invariant forall id | id in folders ::
          folders[id] == (if id !in rest && old(folders)[id] == Some(folder) then dest else old(folders)[id])
        decreases |rest|
      {
        var id :| id in rest;
        if folders[id] == Some(folder) {
          folders := folders[id := dest];
        }
        rest := rest - {id};
      }
    }

    /** False when there is no such folder. The folder's id is a part of the URL, so it is not empty. */
    method HandleDelete(folder: string, transferQuery: string) returns (found: bool)
      requires folder != ""
      modifies this
      ensures found == (folder in old(folders))
      ensures Model() == if found then Deleted(old(Model()), folder, TrimSpace(transferQuery)) else old(Model())
    {
      if folder !in folders {
        return false;
      }
      var transferTo := TrimSpace(transferQuery);
      if transferTo != "" {
        var dest := if transferTo != ROOT then Some(transferTo) else None;
        MoveWorkflows(folder, dest);
        MoveChildren(folder, dest);
      } else {
        var descendants := FolderAndDescendants(folders, folder);
        EmptyFolders(descendants);
        DeleteAll(descendants, folder);
        assert folder in descendants by {
          ReachesItself(old(folders), folder);
        }
      }
      folders := folders - {folder};
      return true;
    }
  }

  // ---------------------------------------------------------------- what a deletion asks for

  /** Without a destination, or with blanks for one, the folders below go too. With the destination "0" what
      is directly in the folder goes to the project root, with any other to that folder. */
  lemma DeletionAsked(s: State, folder: string, transferTo: string)
    requires transferTo != "" && folder != transferTo
    ensures var t := Deleted(s, folder, transferTo);
      var dest := if transferTo == "0" then None else Some(transferTo);
      && t.folders.Keys == s.folders.Keys - {folder} && t.workflows.Keys == s.workflows.Keys
      && (forall id | id in t.folders ::
            t.folders[id] == if s.folders[id] == Some(folder) then dest else s.folders[id])
      && (forall w | w in t.workflows ::
            t.workflows[w] == if s.workflows[w] == Some(folder) then dest else s.workflows[w])
    ensures Deleted(s, folder, "").folders.Keys == s.folders.Keys - Below(s.folders, folder)
  {}

  // ---------------------------------------------------------------- what deletion keeps

  /** A chain of which no folder is removed or moved is still one. */
  lemma ChainStays(folders: FolderMap, after: FolderMap, chain: seq<string>)
    requires IsChain(folders, chain)
    requires forall id | id in chain :: id in after && after[id] == folders[id]
    ensures IsChain(after, chain)
  {}

  lemma CascadeKeepsForest(s: State, folder: string)
    requires Forest(s.folders)
    ensures Forest(Cascade(s, folder).folders)
  {
    var t := Cascade(s, folder);
    forall id | id in t.folders
      ensures Rooted(t.folders, id)
    {
      var chain :| IsChain(s.folders, chain) && chain[0] == id && s.folders[chain[|chain| - 1]] == None;
      forall x | x in chain
        ensures x in t.folders
      {
        ChainReachesMember(s.folders, chain, x, folder);
      }
      ChainStays(s.folders, t.folders, chain);
    }
  }

  /** Cascading keeps every workflow, in its folder or, if that is deleted, at the project root; it
      deletes exactly the folders below. The rest stays as well-founded as it was. */
  lemma CascadeIsSafe(s: State, folder: string)
    requires folder in s.folders
    ensures var t := Cascade(s, folder);
      && t.workflows.Keys == s.workflows.Keys
      && (forall w | w in s.workflows ::
            t.workflows[w] ==
            (if s.workflows[w].Some? && s.workflows[w].value in s.folders - t.folders.Keys
             then None else s.workflows[w]))
      && (forall id :: id in t.folders <==> id in s.folders && !Reaches(s.folders, id, folder))
      && (forall id | id in t.folders && t.folders[id].Some? && t.folders[id].value in s.folders ::
          t.folders[id].value in t.folders)
      && (Placed(s) ==> Placed(t)) && (Forest(s.folders) ==> Forest(t.folders))
  {
    hide Reaches, Forest;
    var t := Cascade(s, folder);
    forall id | id in t.folders && t.folders[id].Some? && t.folders[id].value in s.folders
      ensures t.folders[id].value in t.folders
    {
      if Reaches(s.folders, t.folders[id].value, folder) {
        ChildReaches(s.folders, id, t.folders[id].value, folder);
      }
    }
    if Forest(s.folders) {
      CascadeKeepsForest(s, folder);
    }
  }

  /** If something on a chain reaches a folder, so does the chain's start. */
  lemma ChainReachesMember(folders: FolderMap, chain: seq<string>, x: string, root: string)
    requires IsChain(folders, chain) && x in chain
    ensures Reaches(folders, x, root) ==> Reaches(folders, chain[0], root)
  {
    var k :| 0 <= k < |chain| && chain[k] == x;
    if Reaches(folders, x, root) {
      var rest :| IsChain(folders, rest) && rest[0] == x && rest[|rest| - 1] == root;
      var whole := chain[..k] + rest;
      forall i | 0 <= i < |whole| - 1
        ensures folders[whole[i]] == Some(whole[i + 1])
      {
        if i < k {
          assert folders[chain[i]] == Some(chain[i + 1]);
        } else {
          assert folders[rest[i - k]] == Some(rest[i - k + 1]);
        }
      }
      assert IsChain(folders, whole) && whole[0] == chain[0] && whole[|whole| - 1] == root;
    }
  }

  /** The destination is the project root, or a folder that exists and is not in the deleted one. */
  ghost predicate GoodDestination(folders: FolderMap, folder: string, dest: Option<string>) {
    dest.Some? ==> dest.value in folders && !Reaches(folders, dest.value, folder)
  }

  predicate HasSubfolder(folders: FolderMap, folder: string) {
    exists id :: id in folders && folders[id] == Some(folder)
  }

  /** The part of a chain before it meets the deleted folder, followed by the destination's chain. */
  lemma {:induction false} Rerouted(s: State, folder: string, dest: Option<string>, chain: seq<string>)
    requires Forest(s.folders) && GoodDestination(s.folders, folder, dest)
    requires IsChain(s.folders, chain) && s.folders[chain[|chain| - 1]] == None && chain[0] != folder
    ensures Rooted(Transfer(s, folder, dest).folders, chain[0])
    decreases |chain|
  {
    var after := Transfer(s, folder, dest).folders;
    if s.folders[chain[0]] == None {
      assert IsChain(after, [chain[0]]) && [chain[0]][|[chain[0]]| - 1] == chain[0];
    } else {
      assert s.folders[chain[0]] == Some(chain[1]);
      if chain[1] != folder {
        Rerouted(s, folder, dest, chain[1..]);
        RootedAbove(after, chain[0], chain[1]);
      } else if dest.None? {
        assert IsChain(after, [chain[0]]) && [chain[0]][|[chain[0]]| - 1] == chain[0];
      } else {
        DestinationStaysRooted(s, folder, dest.value);
        RootedAbove(after, chain[0], dest.value);
      }
    }
  }

  lemma RootedAbove(folders: FolderMap, child: string, parent: string)
    requires child in folders && folders[child] == Some(parent) && Rooted(folders, parent)
    ensures Rooted(folders, child)
  {
    var chain :| IsChain(folders, chain) && chain[0] == parent && folders[chain[|chain| - 1]] == None;
    var longer := [child] + chain;
    assert IsChain(folders, longer) && longer[0] == child && longer[|longer| - 1] == chain[|chain| - 1];
  }

  lemma AvoidsFolder(folders: FolderMap, chain: seq<string>, folder: string)
    requires IsChain(folders, chain) && !Reaches(folders, chain[0], folder)
    ensures folder !in chain
  {
    if folder in chain {
      ChainReachesMember(folders, chain, folder, folder);
      ReachesItself(folders, folder);
    }
  }

  lemma DestinationStaysRooted(s: State, folder: string, dest: string)
    requires Forest(s.folders) && dest in s.folders && !Reaches(s.folders, dest, folder)
    ensures Rooted(Transfer(s, folder, Some(dest)).folders, dest)
  {
    var after := Transfer(s, folder, Some(dest)).folders;
    var chain :| IsChain(s.folders, chain) && chain[0] == dest && s.folders[chain[|chain| - 1]] == None;
    AvoidsFolder(s.folders, chain, folder);
    forall x | x in chain
      ensures x in after && after[x] == s.folders[x]
    {
      var k :| 0 <= k < |chain| && chain[k] == x;
      if k < |chain| - 1 {
        assert s.folders[chain[k]] == Some(chain[k + 1]) && chain[k + 1] in chain;
      }
    }
    ChainStays(s.folders, after, chain);
  }

  /** A destination below the folder makes a cycle of the chain between them. */
  lemma DestinationBelowMakesCycle(s: State, folder: string, dest: string)
    requires folder in s.folders && dest in s.folders && Reaches(s.folders, dest, folder) && dest != folder
    requires Forest(s.folders)
    ensures !Rooted(Transfer(s, folder, Some(dest)).folders, dest)
  {
    var after := Transfer(s, folder, Some(dest)).folders;
    var chain :| IsChain(s.folders, chain) && chain[0] == dest && chain[|chain| - 1] == folder;
    var ids := set x | x in chain;
    forall id | id in ids && id in after
      ensures after[id].Some? && after[id].value in ids
    {
      var k :| 0 <= k < |chain| && chain[k] == id;
      assert id != folder;
      assert s.folders[chain[k]] == Some(chain[k + 1]);
      assert dest in chain;
    }
    if Rooted(after, dest) {
      var up :| IsChain(after, up) && up[0] == dest && after[up[|up| - 1]] == None;
      ClosedUnderParents(after, ids, up);
    }
  }

  lemma TransferKeepsForest(s: State, folder: string, dest: Option<string>)
    requires folder in s.folders && Forest(s.folders)
    requires GoodDestination(s.folders, folder, dest) || !HasSubfolder(s.folders, folder)
    ensures Forest(Transfer(s, folder, dest).folders)
  {
    var t := Transfer(s, folder, dest);
    forall id | id in t.folders
      ensures Rooted(t.folders, id)
    {
      var chain :| IsChain(s.folders, chain) && chain[0] == id && s.folders[chain[|chain| - 1]] == None;
      if GoodDestination(s.folders, folder, dest) {
        Rerouted(s, folder, dest, chain);
      } else {
        LeafNotOnChain(s.folders, chain, folder);
        ChainStays(s.folders, t.folders, chain);
      }
    }
  }

  lemma TransferPlacesExactly(s: State, folder: string, dest: Option<string>)
    requires folder in s.folders && Placed(s)
    ensures Placed(Transfer(s, folder, dest)) <==>
              (dest.Some? ==> dest.value in s.folders && dest.value != folder)
              || forall w | w in s.workflows :: s.workflows[w] != Some(folder)
  {
    var t := Transfer(s, folder, dest);
    if w :| w in s.workflows && s.workflows[w] == Some(folder) {
      assert t.workflows[w] == dest;
    }
  }

  /** Handing the contents over keeps every workflow and moves just what is directly in the folder. The
      remaining folders form a forest again exactly when the destination is good or no folder moves; the
      workflows are all in folders that exist exactly when the destination is the root or another
      existing folder, or no workflow moves. */
  lemma TransferIsSafeExactly(s: State, folder: string, dest: Option<string>)
    requires folder in s.folders && Forest(s.folders) && Placed(s)
    ensures var t := Transfer(s, folder, dest);
      && t.workflows.Keys == s.workflows.Keys && t.folders.Keys == s.folders.Keys - {folder}
      && (Forest(t.folders) <==> GoodDestination(s.folders, folder, dest) || !HasSubfolder(s.folders, folder))
      && (Placed(t) <==> (dest.Some? ==> dest.value in s.folders && dest.value != folder)
                         || forall w | w in s.workflows :: s.workflows[w] != Some(folder))
  {
    hide Forest, Placed, Reaches, HasSubfolder;
    TransferPlacesExactly(s, folder, dest);
    if GoodDestination(s.folders, folder, dest) || !HasSubfolder(s.folders, folder) {
      TransferKeepsForest(s, folder, dest);
    } else {
      BadDestinationBreaks(s, folder, dest.value);
    }
  }

  lemma LeafNotOnChain(folders: FolderMap, chain: seq<string>, leaf: string)
    requires IsChain(folders, chain) && chain[0] != leaf && !HasSubfolder(folders, leaf)
    ensures leaf !in chain
  {
    forall k | 0 < k < |chain|
      ensures chain[k] != leaf
    {
      assert folders[chain[k - 1]] == Some(chain[k]);
    }
  }

  lemma ParentExists(folders: FolderMap, id: string)
    requires Rooted(folders, id)
    ensures id in folders && (folders[id].Some? ==> folders[id].value in folders)
  {
    var chain :| IsChain(folders, chain) && chain[0] == id && folders[chain[|chain| - 1]] == None;
    if folders[id].Some? {
      assert folders[chain[0]] == Some(chain[1]) && chain[1] in chain;
    }
  }

  lemma BadDestinationBreaks(s: State, folder: string, dest: string)
    requires folder in s.folders && Forest(s.folders) && HasSubfolder(s.folders, folder)
    requires dest !in s.folders || Reaches(s.folders, dest, folder)
    ensures !Forest(Transfer(s, folder, Some(dest)).folders)
  {
    var after := Transfer(s, folder, Some(dest)).folders;
    if dest in s.folders && dest != folder {
      DestinationBelowMakesCycle(s, folder, dest);
    } else {
      var child :| child in s.folders && s.folders[child] == Some(folder);
      if child == folder {
        OwnParentNotRooted(s.folders, folder);
      } else if Rooted(after, child) {
        ParentExists(after, child);
      }
    }
  }

  lemma OwnParentNotRooted(folders: FolderMap, folder: string)
    requires folder in folders && folders[folder] == Some(folder)
    ensures !Rooted(folders, folder)
  {
    if Rooted(folders, folder) {
      var chain :| IsChain(folders, chain) && chain[0] == folder && folders[chain[|chain| - 1]] == None;
      ClosedUnderParents(folders, {folder}, chain);
    }
  }
}
