/**
 * The project store: project metadata, the character map and the hierarchy. Every
 * action that edits characters or the hierarchy stamps `updatedAt` with the time it
 * is given.
 */
module ProjectStore {
  import opened Wrappers
  import opened Types
  import opened Lists
  import opened Tree

  const DefaultProjectName := "Untitled Project"

  class Store {
    var id: string
    var name: string
    var schemaVersion: int
    var createdAt: string
    var updatedAt: string
    var characters: map<string, Character>
    var hierarchyRoot: seq<TreeNode>
    /** Every id the id generator has handed out. */
    var issued: set<string>

    /** The persisted part of the store, as one record. */
    function Snapshot(): Project
      reads this
    {
      Project(id, name, schemaVersion, createdAt, updatedAt, characters, hierarchyRoot)
    }

    constructor ()
      ensures Snapshot() == Project("", "", 1, "", "", map[], []) && issued == {}
    {
      id, name, schemaVersion, createdAt, updatedAt := "", "", 1, "", "";
      characters, hierarchyRoot := map[], [];
      issued := {};
    }

    /** An id the generator never handed out and no character uses. */
    method NewId() returns (newId: string)
      modifies this
      ensures newId !in old(issued) && newId !in old(characters)
      ensures issued == old(issued) + {newId} && Snapshot() == old(Snapshot())
    {
      newId := FreshString(issued + characters.Keys);
      issued := issued + {newId};
    }

    /** A new empty project, named "Untitled Project" when no name is given. */
    method CreateProject(projectName: Option<string>, now: string)
      modifies this
      ensures id !in old(issued) && issued == old(issued) + {id}
      ensures Snapshot() == Project(id, projectName.GetOr(DefaultProjectName), 1, now, now, map[], [])
    {
      var newId := NewId();
      id, name, schemaVersion, createdAt, updatedAt := newId, projectName.GetOr(DefaultProjectName), 1, now, now;
      characters, hierarchyRoot := map[], [];
    }

    method UpdateProjectName(newName: string, now: string)
      modifies this
      ensures Snapshot() == old(Snapshot()).(name := newName, updatedAt := now) && issued == old(issued)
    {
      name, updatedAt := newName, now;
    }

    /** A character under a fresh id; no other character changes. */
    method AddCharacter(characterName: string, now: string) returns (characterId: string)
      modifies this
      ensures characterId !in old(characters)
      ensures characters == old(characters)[characterId := Character(characterId, characterName)]
      ensures Snapshot() == old(Snapshot()).(characters := characters, updatedAt := now)
    {
      characterId := NewId();
      characters := characters[characterId := Character(characterId, characterName)];
      updatedAt := now;
    }

    method RemoveCharacter(characterId: string, now: string)
      modifies this
      ensures characters == old(characters) - {characterId}
      ensures Snapshot() == old(Snapshot()).(characters := characters, updatedAt := now) && issued == old(issued)
    {
      characters := characters - {characterId};
      updatedAt := now;
    }

    /** Merges the given fields into an existing character; `None` leaves the name as it is. */
    method UpdateCharacter(characterId: string, newName: Option<string>, now: string)
      requires characterId in characters
      modifies this
      ensures characters == old(characters)[characterId := old(characters)[characterId].(name := newName.GetOr(old(characters)[characterId].name))]
      ensures Snapshot() == old(Snapshot()).(characters := characters, updatedAt := now) && issued == old(issued)
    {
      var c := characters[characterId];
      characters := characters[characterId := c.(name := newName.GetOr(c.name))];
      updatedAt := now;
    }

    method SetHierarchy(root: seq<TreeNode>, now: string)
      modifies this
      ensures Snapshot() == old(Snapshot()).(hierarchyRoot := root, updatedAt := now) && issued == old(issued)
    {
      hierarchyRoot, updatedAt := root, now;
    }

    /**
     * A childless tree node under a fresh id, at the end of the top level or of the
     * parent's children. An unknown parent leaves the hierarchy as it was, but the time
     * is still stamped and the id still returned.
     */
    method AddTreeNode(parentId: Option<string>, kind: TreeNodeType, nodeName: string, graphId: Option<string>, now: string)
      returns (nodeId: string)
      modifies this
      ensures nodeId !in old(issued)
      ensures hierarchyRoot == AddTreeNodeSpec(old(hierarchyRoot), parentId, TreeNode(nodeId, kind, nodeName, [], graphId))
      ensures Snapshot() == old(Snapshot()).(hierarchyRoot := hierarchyRoot, updatedAt := now)
    {
      nodeId := NewId();
      var newNode := TreeNode(nodeId, kind, nodeName, [], graphId);
      if parentId.None? {
        hierarchyRoot := hierarchyRoot + [newNode];
      } else {
        hierarchyRoot := UpdateTreeNode(hierarchyRoot, parentId.value, WithChild(newNode));
      }
      updatedAt := now;
    }

    /** Cuts every node with this id, with its subtree, out of the hierarchy. */
    method RemoveTreeNode(nodeId: string, now: string)
      modifies this
      ensures hierarchyRoot == FindAndRemove(old(hierarchyRoot), nodeId).remaining
      ensures Snapshot() == old(Snapshot()).(hierarchyRoot := hierarchyRoot, updatedAt := now) && issued == old(issued)
    {
      var cut := FindAndRemove(hierarchyRoot, nodeId);
      hierarchyRoot, updatedAt := cut.remaining, now;
    }

    /**
     * Moves a subtree under `newParentId` (or to the top level) at `newIndex`. A refused
     * move returns the state as it was, without stamping the time.
     */
    method MoveTreeNode(nodeId: string, newParentId: Option<string>, newIndex: int, now: string)
      modifies this
      ensures MoveTree(old(hierarchyRoot), nodeId, newParentId, newIndex).None? ==> Snapshot() == old(Snapshot())
      ensures MoveTree(old(hierarchyRoot), nodeId, newParentId, newIndex).Some? ==>
        Snapshot() == old(Snapshot()).(hierarchyRoot := MoveTree(old(hierarchyRoot), nodeId, newParentId, newIndex).value, updatedAt := now)
      ensures issued == old(issued)
    {
      if newParentId.Some? && newParentId.value != "" && IsDescendant(hierarchyRoot, nodeId, newParentId.value) {
        return;
      }
      var cut := FindAndRemove(hierarchyRoot, nodeId);
      if cut.removed.None? {
        return;
      }
      hierarchyRoot := InsertNode(cut.remaining, newParentId, cut.removed.value, newIndex);
      updatedAt := now;
    }

    method RenameTreeNode(nodeId: string, newName: string, now: string)
      modifies this
      ensures hierarchyRoot == UpdateTreeNode(old(hierarchyRoot), nodeId, Renamed(newName))
      ensures Snapshot() == old(Snapshot()).(hierarchyRoot := hierarchyRoot, updatedAt := now) && issued == old(issued)
    {
      hierarchyRoot := UpdateTreeNode(hierarchyRoot, nodeId, Renamed(newName));
      updatedAt := now;
    }

    /** Replaces the persisted fields, as an import does. */
    method Hydrate(p: Project)
      modifies this
      ensures Snapshot() == p && issued == old(issued)
    {
      id, name, schemaVersion, createdAt, updatedAt := p.id, p.name, p.schemaVersion, p.createdAt, p.updatedAt;
      characters, hierarchyRoot := p.characters, p.hierarchyRoot;
    }
  }
}
