/** The inode table of the NFS and FUSE backends: Drive items interned to
    stable numbers, an id map and a (parent, name) index that mirror each
    other. */
module InodeTables {
  import opened Basics

  const ROOT: nat := 1

  datatype Item = Item(uuid: string, isDir: bool, size: nat)

  datatype Node = Node(parent: nat, name: string, item: Item)

  type Key = (nat, string)

  datatype Table = Table(nodes: map<nat, Node>, index: map<Key, nat>, nextId: nat) {

    function Intern(parent: nat, name: string, item: Item): (Table, nat) {
      var key := (parent, name);
      if key in index then
        var id := index[key];
        (if id in nodes then this.(nodes := nodes[id := nodes[id].(item := item)]) else this, id)
      else
        (Table(nodes[nextId := Node(parent, name, item)], index[key := nextId], nextId + 1), nextId)
    }

    function Remove(id: nat): Table {
      if id in nodes then
        Table(nodes - {id}, index - {(nodes[id].parent, nodes[id].name)}, nextId)
      else
        this
    }

    /** The two maps are mutually inverse off the root, and a parent's number
        is always below its child's. */
    ghost predicate Valid() {
      && ROOT in nodes && nodes[ROOT].parent == ROOT && ROOT < nextId
      && (forall id | id in nodes :: id < nextId)
      && (forall id | id in nodes && id != ROOT ::
            && nodes[id].parent < id
            && (nodes[id].parent, nodes[id].name) in index
            && index[(nodes[id].parent, nodes[id].name)] == id)
      && (forall key | key in index ::
            && index[key] in nodes && index[key] != ROOT
            && (nodes[index[key]].parent, nodes[index[key]].name) == key)
    }
  }

  function Fresh(root: Item): Table {
    Table(map[ROOT := Node(ROOT, "", root)], map[], 2)
  }

  /** Callers intern under a number handed out before, and remove only
      numbers found in the index. */
  datatype Op = OpIntern(parent: nat, name: string, item: Item) | OpRemove(id: nat)

  predicate CanDo(t: Table, op: Op) {
    match op
    case OpIntern(parent, _, _) => parent < t.nextId
    case OpRemove(id) => id != ROOT
  }

  function Do(t: Table, op: Op): Table {
    match op
    case OpIntern(parent, name, item) => t.Intern(parent, name, item).0
    case OpRemove(id) => t.Remove(id)
  }

  predicate IsRun(t: Table, ops: seq<Op>)
    decreases |ops|
  {
    ops == [] || (CanDo(t, ops[0]) && IsRun(Do(t, ops[0]), ops[1..]))
  }

  function After(t: Table, ops: seq<Op>): Table
    decreases |ops|
  {
    if ops == [] then t else After(Do(t, ops[0]), ops[1..])
  }

  lemma OpKeepsValid(t: Table, op: Op)
    requires t.Valid() && CanDo(t, op)
    ensures Do(t, op).Valid()
  {
  }

  /** Interning gives the key its old number, or one never handed out, under
      which the item now is; and touches nothing else. */
  lemma InternTouchesOne(t: Table, parent: nat, name: string, item: Item)
    requires t.Valid() && parent < t.nextId
    ensures var (u, id) := t.Intern(parent, name, item);
            && id in u.nodes && u.nodes[id] == Node(parent, name, item)
            && (if (parent, name) in t.index then id == t.index[(parent, name)] else id == t.nextId && id !in t.nodes)
            && (forall other | other != id :: other in u.nodes <==> other in t.nodes)
            && (forall other | other in t.nodes && other != id :: u.nodes[other] == t.nodes[other])
            && (forall key | key in t.index :: key in u.index && u.index[key] == t.index[key])
  {
  }

  /** Removing takes the number and its key away, and nothing else. */
  lemma RemovedIsGone(t: Table, id: nat)
    requires t.Valid() && id in t.nodes && id != ROOT
    ensures var u := t.Remove(id);
            && id !in u.nodes && (t.nodes[id].parent, t.nodes[id].name) !in u.index
            && (forall other | other in t.nodes && other != id :: other in u.nodes && u.nodes[other] == t.nodes[other])
            && (forall key | key in t.index && t.index[key] != id :: key in u.index && u.index[key] == t.index[key])
            && u.nextId == t.nextId
  {
  }

  /** The invariant over every run, from the empty table on. */
  lemma {:induction false} RunKeepsValid(t: Table, ops: seq<Op>)
    requires t.Valid() && IsRun(t, ops)
    ensures After(t, ops).Valid() && t.nextId <= After(t, ops).nextId
    decreases |ops|
  {
    if ops != [] {
      OpKeepsValid(t, ops[0]);
      RunKeepsValid(Do(t, ops[0]), ops[1..]);
    }
  }

  /** A number stays with its (parent, name) until it is removed, however
      often its metadata is refreshed. */
  lemma {:induction false} NumbersAreStable(t: Table, ops: seq<Op>, key: Key)
    requires t.Valid() && IsRun(t, ops) && key in t.index
    requires OpRemove(t.index[key]) !in ops
    ensures key in After(t, ops).index && After(t, ops).index[key] == t.index[key]
    decreases |ops|
  {
    if ops != [] {
      OpKeepsValid(t, ops[0]);
      assert ops[0] in ops;
      NumbersAreStable(Do(t, ops[0]), ops[1..], key);
    }
  }

  /** A number once gone never comes back: no later run has it in the table,
      and no intern after that run answers with it. */
  lemma {:induction false} NumbersAreNotReused(t: Table, ops: seq<Op>, id: nat, parent: nat, name: string, item: Item)
    requires t.Valid() && IsRun(t, ops) && id < t.nextId && id !in t.nodes
    ensures id !in After(t, ops).nodes && After(t, ops).Intern(parent, name, item).1 != id
    decreases |ops|
  {
    if ops != [] {
      OpKeepsValid(t, ops[0]);
      NumbersAreNotReused(Do(t, ops[0]), ops[1..], id, parent, name, item);
    }
  }

  // ---- paths ----

  /** The names from the root down to `id`; a parent that is gone is shown as
      its number. */
  function NamesTo(t: Table, id: nat, shown: nat -> string): (names: seq<string>)
    decreases id
  {
    if id == ROOT then []
    else if id !in t.nodes then [shown(id)]
    else if t.nodes[id].parent < id then NamesTo(t, t.nodes[id].parent, shown) + [t.nodes[id].name]
    else [t.nodes[id].name]
  }

  /** Every ancestor is still in the table. */
  predicate Rooted(t: Table, id: nat)
    decreases id
  {
    id == ROOT || (id in t.nodes && t.nodes[id].parent < id && Rooted(t, t.nodes[id].parent))
  }

  /** Follow names down through the index. */
  function Follow(t: Table, from: nat, names: seq<string>): Option<nat>
    decreases |names|
  {
    if names == [] then Some(from)
    else if (from, names[0]) in t.index then Follow(t, t.index[(from, names[0])], names[1..])
    else None
  }

  lemma {:induction false} FollowAppend(t: Table, from: nat, names: seq<string>, name: string)
    ensures Follow(t, from, names + [name])
         == match Follow(t, from, names)
            case None => None
            case Some(id) => if (id, name) in t.index then Some(t.index[(id, name)]) else None
    decreases |names|
  {
    if names != [] {
      assert (names + [name])[1..] == names[1..] + [name];
      if (from, names[0]) in t.index {
        FollowAppend(t, t.index[(from, names[0])], names[1..], name);
      }
    } else {
      assert [name][1..] == [];
    }
  }

  /** Climbing and following undo each other: the names on the path of an item
      lead from the root back to its number. */
  lemma {:induction false} PathLeadsBack(t: Table, id: nat, shown: nat -> string)
    requires t.Valid() && Rooted(t, id)
    ensures Follow(t, ROOT, NamesTo(t, id, shown)) == Some(id)
    decreases id
  {
    if id != ROOT {
      var node := t.nodes[id];
      PathLeadsBack(t, node.parent, shown);
      FollowAppend(t, ROOT, NamesTo(t, node.parent, shown), node.name);
    }
  }

  class InodeTable {
    var nodes: map<nat, Node>
    var byParentName: map<Key, nat>
    var nextId: nat

    ghost function Value(): Table
      reads this
    {
      Table(nodes, byParentName, nextId)
    }

    constructor (root: Item)
      ensures Value() == Fresh(root) && Value().Valid()
    {
      nodes, byParentName, nextId := map[ROOT := Node(ROOT, "", root)], map[], 2;
    }

    /** Intern a child, or refresh it and keep its number. */
    method Intern(parent: nat, name: string, item: Item) returns (id: nat)
      requires Value().Valid() && parent < nextId
      modifies this
      ensures (Value(), id) == old(Value()).Intern(parent, name, item)
      ensures Value().Valid() && id in nodes && nodes[id] == Node(parent, name, item)
      ensures (parent, name) in byParentName && byParentName[(parent, name)] == id
    {
      OpKeepsValid(Value(), OpIntern(parent, name, item));
      if (parent, name) in byParentName {
        id := byParentName[(parent, name)];
        if id in nodes {
          nodes := nodes[id := nodes[id].(item := item)];
        }
        return;
      }
      id := nextId;
      nextId := nextId + 1;
      nodes := nodes[id := Node(parent, name, item)];
      byParentName := byParentName[(parent, name) := id];
    }

    method RemoveNode(id: nat)
      requires Value().Valid() && id != ROOT
      modifies this
      ensures Value() == old(Value()).Remove(id) && Value().Valid()
    {
      OpKeepsValid(Value(), OpRemove(id));
      if id in nodes {
        var node := nodes[id];
        nodes := nodes - {id};
        byParentName := byParentName - {(node.parent, node.name)};
      }
    }

    /** Climbing parent links ends, because every step goes to a smaller
        number, and collects the path. */
    method PathOf(id: nat, shown: nat -> string) returns (names: seq<string>)
      requires Value().Valid()
      ensures names == NamesTo(Value(), id, shown)
      ensures Rooted(Value(), id) ==> Follow(Value(), ROOT, names) == Some(id)
    {
      if Rooted(Value(), id) {
        PathLeadsBack(Value(), id, shown);
      }
      names := [];
      var cur := id;
      while cur != ROOT
        invariant NamesTo(Value(), id, shown) == NamesTo(Value(), cur, shown) + names
        decreases cur
      {
        if cur in nodes {
          names := [nodes[cur].name] + names;
          cur := nodes[cur].parent;
        } else {
          names := [shown(cur)] + names;
          break;
        }
      }
    }
  }
}
