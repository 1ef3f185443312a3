/** Rebuilding a flatted table: cells become heap nodes, each container cell once, cycles included. */
module FlattedDecoder {
  import opened Wrappers
  import opened Text
  import opened Flatted

  datatype Value = VNull | VBool(value: bool) | VNum(literal: string) | VStr(text: string) | VRef(addr: nat)

  datatype Node = ObjNode(fields: map<string, Value>) | ArrNode(items: seq<Value>)

  datatype ParseError = EmptyArray | BadRootIndex(text: string) | RootOutOfRange(index: int) | OutOfRange(index: int)

  function Scalar(v: Json): Value {
    match v
    case Bool(b) => VBool(b)
    case Num(n) => VNum(n)
    case Str(s) => VStr(s)
    case _ => VNull
  }

  // ---------------------------------------------------------------- decoder states

  /** `done` are the nodes that no running call will change; `open` are the cells being rebuilt. */
  datatype Snap = Snap(heap: seq<Node>, done: set<nat>, cache: seq<Value>, seen: seq<bool>, open: set<nat>)

  /** The value `x`, found in a rebuilt container, is right for the child `c` of its cell: a reference
      to a cell is that cell's one cached value, and a container written inline has a node of its own. */
  ghost predicate ChildMatches(values: Table, s: Snap, c: Json, x: Value)
    requires |s.cache| == |s.seen| == |values|
    decreases c, 1
  {
    match c
    case Str(text) =>
      var target := Target(values, text);
      if target.Some? then s.seen[target.value] && x == s.cache[target.value] else x == VStr(text)
    case Obj(_) => NodeDone(s, x) && NodeMatches(values, s, c, s.heap[x.addr])
    case Arr(_) => NodeDone(s, x) && NodeMatches(values, s, c, s.heap[x.addr])
    case _ => x == Scalar(c)
  }

  ghost predicate NodeDone(s: Snap, x: Value) {
    x.VRef? && x.addr in s.done && x.addr < |s.heap|
  }

  ghost predicate NodeMatches(values: Table, s: Snap, c: Json, node: Node)
    requires |s.cache| == |s.seen| == |values|
    decreases c, 0
  {
    match c
    case Obj(fields) =>
      && node.ObjNode? && node.fields.Keys == fields.Keys
      && forall k | k in fields :: ChildMatches(values, s, fields[k], node.fields[k])
    case Arr(items) =>
      && node.ArrNode? && |node.items| == |items|
      && forall j | 0 <= j < |items| :: ChildMatches(values, s, items[j], node.items[j])
    case _ => false
  }

  /** Cell `i` is rebuilt: its cached value is a scalar, or a finished node with the right children. */
  ghost predicate CellMatches(values: Table, s: Snap, i: nat)
    requires |s.cache| == |s.seen| == |values| && i < |values|
  {
    if values[i].IsContainer()
    then NodeDone(s, s.cache[i]) && NodeMatches(values, s, values[i], s.heap[s.cache[i].addr])
    else s.cache[i] == Scalar(values[i])
  }

  ghost predicate Good(values: Table, s: Snap) {
    && |s.cache| == |s.seen| == |values|
    && (forall a | a in s.done :: a < |s.heap|)
    && (forall i | i in s.open :: i < |values| && s.seen[i])
    && (forall i: nat | i < |values| && s.seen[i] :: i in s.open || CellMatches(values, s, i))
    && OwnNodes(values, s)
  }

  /** No two container cells share a node. */
  ghost predicate OwnNodes(values: Table, s: Snap)
    requires |s.cache| == |s.seen| == |values|
  {
    && (forall i: nat | i < |values| && s.seen[i] && values[i].IsContainer() ::
          s.cache[i].VRef? && s.cache[i].addr < |s.heap|)
    && (forall i: nat, j: nat | i < j < |values| && s.seen[i] && s.seen[j]
          && values[i].IsContainer() && values[j].IsContainer() :: s.cache[i] != s.cache[j])
  }

  /** Finished nodes and cached values stay as they are. */
  ghost predicate Keeps(a: Snap, b: Snap) {
    && |a.heap| <= |b.heap| && a.done <= b.done
    && (forall x | x in a.done && x < |a.heap| :: b.heap[x] == a.heap[x])
    && |a.cache| == |b.cache| == |a.seen| == |b.seen|
    && (forall i | 0 <= i < |a.seen| && a.seen[i] :: b.seen[i] && b.cache[i] == a.cache[i])
  }

  /** What every call does to the state it found: all nodes stay, and only new ones are finished. */
  ghost predicate Grew(a: Snap, b: Snap) {
    && Keeps(a, b)
    && b.heap[..|a.heap|] == a.heap
    && (forall x | x in b.done :: x in a.done || x >= |a.heap|)
    && b.open == a.open
  }

  lemma GrewTrans(a: Snap, b: Snap, c: Snap)
    requires Grew(a, b) && Grew(b, c)
    ensures Grew(a, c)
  {
    assert c.heap[..|a.heap|] == c.heap[..|b.heap|][..|a.heap|];
    forall x | x in a.done && x < |a.heap|
      ensures c.heap[x] == a.heap[x]
    {
      assert c.heap[x] == c.heap[..|a.heap|][x];
    }
  }

  lemma {:induction false} ChildStaysMatched(values: Table, s: Snap, t: Snap, c: Json, x: Value)
    requires |s.cache| == |s.seen| == |values| && Keeps(s, t) && ChildMatches(values, s, c, x)
    ensures ChildMatches(values, t, c, x)
    decreases c, 1
  {
    if c.IsContainer() {
      NodeStaysMatched(values, s, t, c, s.heap[x.addr]);
    }
  }

  lemma {:induction false} NodeStaysMatched(values: Table, s: Snap, t: Snap, c: Json, node: Node)
    requires |s.cache| == |s.seen| == |values| && Keeps(s, t) && NodeMatches(values, s, c, node)
    ensures NodeMatches(values, t, c, node)
    decreases c, 0
  {
    match c
    case Obj(fields) =>
      forall k | k in fields
        ensures ChildMatches(values, t, fields[k], node.fields[k])
      {
        ChildStaysMatched(values, s, t, fields[k], node.fields[k]);
      }
    case Arr(items) =>
      forall j | 0 <= j < |items|
        ensures ChildMatches(values, t, items[j], node.items[j])
      {
        ChildStaysMatched(values, s, t, items[j], node.items[j]);
      }
    case _ =>
  }

  lemma CellStaysMatched(values: Table, s: Snap, t: Snap, i: nat)
    requires |s.cache| == |s.seen| == |values| && i < |values| && s.seen[i]
    requires Keeps(s, t) && CellMatches(values, s, i)
    ensures CellMatches(values, t, i)
  {
    if values[i].IsContainer() {
      NodeStaysMatched(values, s, t, values[i], s.heap[s.cache[i].addr]);
    }
  }

  /** Good states stay good while nodes are added, changed before they are finished, or finished. */
  lemma KeepsGood(values: Table, s: Snap, t: Snap)
    requires Good(values, s) && Keeps(s, t) && t.cache == s.cache && t.seen == s.seen && t.open == s.open
    requires forall a | a in t.done :: a < |t.heap|
    ensures Good(values, t)
  {
    forall i: nat | i < |values| && t.seen[i] && i !in t.open
      ensures CellMatches(values, t, i)
    {
      CellStaysMatched(values, s, t, i);
    }
  }

  // ---------------------------------------------------------------- opening, filling and closing a cell

  /** A new, unfinished node is cached before the children of its cell are resolved. */
  function Opened(s: Snap, i: nat, node: Node): Snap
    requires i < |s.cache| == |s.seen|
  {
    Snap(s.heap + [node], s.done, s.cache[i := VRef(|s.heap|)], s.seen[i := true], s.open + {i})
  }

  lemma OpeningKeepsGood(values: Table, s: Snap, i: nat, node: Node)
    requires Good(values, s) && i < |values| && !s.seen[i]
    ensures Good(values, Opened(s, i, node)) && Keeps(s, Opened(s, i, node))
  {
    var t := Opened(s, i, node);
    forall j: nat | j < |values| && t.seen[j] && j !in t.open
      ensures CellMatches(values, t, j)
    {
      CellStaysMatched(values, s, t, j);
    }
  }

  /** The node at `addr` has the children of `keys` so far. */
  ghost predicate FillingObject(values: Table, start: Snap, s: Snap, fields: map<string, Json>, keys: set<string>,
      addr: nat) {
    && Good(values, s) && Grew(start, s) && |start.heap| <= addr < |s.heap| && addr !in s.done
    && keys <= fields.Keys
    && s.heap[addr].ObjNode? && s.heap[addr].fields.Keys == keys
    && forall k | k in keys :: ChildMatches(values, s, fields[k], s.heap[addr].fields[k])
  }

  ghost predicate FillingArray(values: Table, start: Snap, s: Snap, items: seq<Json>, n: nat, addr: nat) {
    && Good(values, s) && Grew(start, s) && |start.heap| <= addr < |s.heap| && addr !in s.done
    && n <= |items|
    && s.heap[addr].ArrNode? && |s.heap[addr].items| == |items|
    && forall j | 0 <= j < n :: ChildMatches(values, s, items[j], s.heap[addr].items[j])
  }

  function Written(s: Snap, addr: nat, node: Node): Snap
    requires addr < |s.heap|
  {
    s.(heap := s.heap[addr := node])
  }

  lemma WritingKeeps(values: Table, start: Snap, before: Snap, after: Snap, addr: nat, node: Node)
    requires Good(values, after) && Grew(start, before) && Grew(before, after)
    requires |start.heap| <= addr < |before.heap| && addr !in before.done
    ensures after.heap[addr] == before.heap[addr] && addr !in after.done
    ensures var t := Written(after, addr, node); Good(values, t) && Keeps(after, t) && Grew(start, t)
  {
    GrewTrans(start, before, after);
    assert after.heap[addr] == after.heap[..|before.heap|][addr];
    var t := Written(after, addr, node);
    KeepsGood(values, after, t);
    assert t.heap[..|start.heap|] == after.heap[..|start.heap|];
  }

  lemma StoringField(values: Table, start: Snap, before: Snap, after: Snap, fields: map<string, Json>,
      keys: set<string>, addr: nat, key: string, x: Value)
    requires FillingObject(values, start, before, fields, keys, addr) && key in fields
    requires Good(values, after) && Grew(before, after) && ChildMatches(values, after, fields[key], x)
    ensures after.heap[addr] == before.heap[addr]
    ensures FillingObject(values, start,
      Written(after, addr, ObjNode(after.heap[addr].fields[key := x])), fields, keys + {key}, addr)
  {
    var node := ObjNode(before.heap[addr].fields[key := x]);
    WritingKeeps(values, start, before, after, addr, node);
    var t := Written(after, addr, node);
    forall k | k in keys + {key}
      ensures ChildMatches(values, t, fields[k], node.fields[k])
    {
      if k != key {
        ChildStaysMatched(values, before, after, fields[k], node.fields[k]);
      }
      ChildStaysMatched(values, after, t, fields[k], node.fields[k]);
    }
  }

  lemma StoringItem(values: Table, start: Snap, before: Snap, after: Snap, items: seq<Json>, n: nat, addr: nat,
      x: Value)
    requires FillingArray(values, start, before, items, n, addr) && n < |items|
    requires Good(values, after) && Grew(before, after) && ChildMatches(values, after, items[n], x)
    ensures after.heap[addr] == before.heap[addr]
    ensures FillingArray(values, start,
      Written(after, addr, ArrNode(after.heap[addr].items[n := x])), items, n + 1, addr)
  {
    var node := ArrNode(before.heap[addr].items[n := x]);
    WritingKeeps(values, start, before, after, addr, node);
    var t := Written(after, addr, node);
    forall j | 0 <= j < n + 1
      ensures ChildMatches(values, t, items[j], node.items[j])
    {
      if j != n {
        ChildStaysMatched(values, before, after, items[j], node.items[j]);
      }
      ChildStaysMatched(values, after, t, items[j], node.items[j]);
    }
  }

  /** The finished node of cell `i` joins the done ones. */
  function Closed(s: Snap, i: nat, addr: nat): Snap {
    s.(done := s.done + {addr}, open := s.open - {i})
  }

  lemma ClosingKeepsGood(values: Table, s: Snap, i: nat)
    requires Good(values, s) && i < |values| && s.seen[i] && values[i].IsContainer()
    requires s.cache[i].VRef? && s.cache[i].addr < |s.heap|
    requires NodeMatches(values, s, values[i], s.heap[s.cache[i].addr])
    ensures Good(values, Closed(s, i, s.cache[i].addr))
  {
    var addr := s.cache[i].addr;
    var t := Closed(s, i, addr);
    forall j: nat | j < |values| && t.seen[j] && j !in t.open
      ensures CellMatches(values, t, j)
    {
      if j == i {
        NodeStaysMatched(values, s, t, values[i], s.heap[addr]);
      } else {
        CellStaysMatched(values, s, t, j);
      }
    }
  }

  /** Where the filling of cell `i` starts, seen from the state before its node was made. */
  function FillStart(s: Snap, i: nat, node: Node): Snap
    requires i < |s.cache| == |s.seen|
  {
    Opened(s, i, node).(heap := s.heap)
  }

  lemma FillingStarts(values: Table, s: Snap, i: nat, node: Node)
    requires Good(values, s) && i < |values| && !s.seen[i]
    ensures var t, addr := Opened(s, i, node), |s.heap|;
      && (values[i].Obj? && node == ObjNode(map[]) ==>
            FillingObject(values, FillStart(s, i, node), t, values[i].fields, {}, addr))
      && (values[i].Arr? && node.ArrNode? && |node.items| == |values[i].items| ==>
            FillingArray(values, FillStart(s, i, node), t, values[i].items, 0, addr))
  {
    OpeningKeepsGood(values, s, i, node);
    assert Opened(s, i, node).heap[..|s.heap|] == s.heap;
  }

  /** Once its node is filled, a cell is closed, and the caller's state has only grown. */
  lemma FilledCloses(values: Table, s: Snap, i: nat, node: Node, t: Snap)
    requires Good(values, s) && i < |values| && !s.seen[i] && values[i].IsContainer()
    requires values[i].Obj? ==>
      FillingObject(values, FillStart(s, i, node), t, values[i].fields, values[i].fields.Keys, |s.heap|)
    requires values[i].Arr? ==>
      FillingArray(values, FillStart(s, i, node), t, values[i].items, |values[i].items|, |s.heap|)
    ensures Good(values, Closed(t, i, |s.heap|)) && Grew(s, Closed(t, i, |s.heap|))
    ensures t.seen[i] && t.cache[i] == VRef(|s.heap|)
  {
    var start := FillStart(s, i, node);
    assert start.seen[i] && start.cache[i] == VRef(|s.heap|);
    ClosingKeepsGood(values, t, i);
    assert t.open - {i} == s.open;
  }

  /** A container written inline gets a node that is finished at once. */
  lemma AddingInline(values: Table, s: Snap, c: Json, node: Node)
    requires Good(values, s) && NodeMatches(values, s, c, node)
    ensures var t := s.(heap := s.heap + [node], done := s.done + {|s.heap|});
      Good(values, t) && Grew(s, t) && ChildMatches(values, t, c, VRef(|s.heap|))
  {
    var t := s.(heap := s.heap + [node], done := s.done + {|s.heap|});
    KeepsGood(values, s, t);
    NodeStaysMatched(values, s, t, c, node);
  }

  // ---------------------------------------------------------------- termination measure

  function Unseen(seen: seq<bool>): nat {
    if seen == [] then 0 else (if seen[0] then 0 else 1) + Unseen(seen[1..])
  }

  lemma {:induction false} SeeingOneMore(seen: seq<bool>, i: nat)
    requires i < |seen| && !seen[i]
    ensures Unseen(seen[i := true]) == Unseen(seen) - 1
  {
    if i == 0 {
      assert seen[0 := true][1..] == seen[1..];
    } else {
      SeeingOneMore(seen[1..], i - 1);
      assert seen[i := true][1..] == seen[1..][i - 1 := true];
    }
  }

  // ---------------------------------------------------------------- the decoder

  class Decoder {
    const values: Table
    const cache: array<Value>
    const seen: array<bool>
    var heap: seq<Node>
    ghost var done: set<nat>
    ghost var open: set<nat>
    ghost var rebuilt: multiset<nat>

    ghost function Now(): Snap
      reads this, cache, seen
    {
      Snap(heap, done, cache[..], seen[..], open)
    }

    /** Every visited cell was rebuilt exactly once, every other cell never. */
    ghost predicate RebuiltOnce()
      reads this, seen
    {
      forall i: nat :: rebuilt[i] == if i < seen.Length && seen[i] then 1 else 0
    }

    ghost predicate Valid()
      reads this, cache, seen
    {
      Good(values, Now()) && RebuiltOnce()
    }

    constructor (values: Table)
      ensures Valid() && this.values == values && fresh(cache) && fresh(seen)
      ensures open == {} && heap == []
    {
      this.values := values;
      cache := new Value[|values|](_ => VNull);
      seen := new bool[|values|](_ => false);
      heap, done, open, rebuilt := [], {}, {}, multiset{};
    }

    method Reconstruct(index: int) returns (r: Result<Value, ParseError>)
      requires Valid()
      modifies this, cache, seen
      ensures Valid() && Grew(old(Now()), Now()) && Unseen(seen[..]) <= Unseen(old(seen[..]))
      ensures r == if 0 <= index < |values| then Success(cache[index]) else Failure(OutOfRange(index))
      ensures 0 <= index < |values| ==> seen[index]
      decreases Unseen(seen[..]), 0, 1
    {
      if index < 0 || index >= |values| {
        return Failure(OutOfRange(index));
      }
      if seen[index] {
        return Success(cache[index]);
      }
      if values[index].IsContainer() {
        RebuildContainer(index);
      } else {
        RebuildScalar(index);
      }
      return Success(cache[index]);
    }

    method RebuildScalar(index: nat)
      requires Valid() && index < |values| && !seen[index] && !values[index].IsContainer()
      modifies this`rebuilt, cache, seen
      ensures Valid() && Grew(old(Now()), Now()) && Unseen(seen[..]) <= Unseen(old(seen[..]))
      ensures seen[index]
    {
      SeeingOneMore(seen[..], index);
      rebuilt := rebuilt + multiset{index};
      cache[index] := Scalar(values[index]);
      seen[index] := true;
      assert seen[..] == old(seen[..])[index := true];
      forall j: nat | j < |values| && seen[j] && j !in open
        ensures CellMatches(values, Now(), j)
      {
        if j != index {
          CellStaysMatched(values, old(Now()), Now(), j);
        }
      }
    }

    method OpenCell(index: nat, node: Node) returns (addr: nat)
      requires Valid() && index < |values| && !seen[index]
      modifies this, cache, seen
      ensures Valid() && Now() == Opened(old(Now()), index, node) && Keeps(old(Now()), Now())
      ensures addr == |old(heap)| && Unseen(seen[..]) < Unseen(old(seen[..]))
    {
      SeeingOneMore(seen[..], index);
      OpeningKeepsGood(values, Now(), index, node);
      rebuilt := rebuilt + multiset{index};
      addr := |heap|;
      heap := heap + [node];
      cache[index] := VRef(addr);
      seen[index] := true;
      open := open + {index};
      assert Now() == Opened(old(Now()), index, node);
    }

    method RebuildContainer(index: nat)
      requires Valid() && index < |values| && !seen[index] && values[index].IsContainer()
      modifies this, cache, seen
      ensures Valid() && Grew(old(Now()), Now()) && Unseen(seen[..]) <= Unseen(old(seen[..]))
      ensures seen[index]
      decreases Unseen(seen[..]), 0, 0
    {
      hide FillingObject, FillingArray, Unseen;
      ghost var start := Now();
      var cell := values[index];
      var node := if cell.Obj? then ObjNode(map[]) else ArrNode(seq(|cell.items|, _ => VNull));
      FillingStarts(values, start, index, node);
      var addr := OpenCell(index, node);
      if cell.Obj? {
        FillObject(cell.fields, addr, FillStart(start, index, node));
      } else {
        FillArray(cell.items, addr, FillStart(start, index, node));
      }
      FilledCloses(values, start, index, node, Now());
      done, open := done + {addr}, open - {index};
    }

    /** One key of an object cell: its child is resolved and stored in the node. */
    method FillField(fields: map<string, Json>, key: string, addr: nat, ghost start: Snap, ghost stored: set<string>)
      requires key in fields && RebuiltOnce()
      requires FillingObject(values, start, Now(), fields, stored, addr)
      modifies this, cache, seen
      ensures RebuiltOnce() && Unseen(seen[..]) <= Unseen(old(seen[..]))
      ensures FillingObject(values, start, Now(), fields, stored + {key}, addr)
      decreases Unseen(seen[..]), 2, 0
    {
      ghost var before := Now();
      var resolved := Resolve(fields[key]);
      ghost var after := Now();
      StoringField(values, start, before, after, fields, stored, addr, key, resolved.value);
      heap := heap[addr := ObjNode(heap[addr].fields[key := resolved.value])];
      assert Now() == Written(after, addr, heap[addr]);
    }

    /** The loop over the keys of an object cell, in any order. */
    method FillObject(fields: map<string, Json>, addr: nat, ghost start: Snap)
      requires RebuiltOnce() && FillingObject(values, start, Now(), fields, {}, addr)
      modifies this, cache, seen
      ensures RebuiltOnce() && FillingObject(values, start, Now(), fields, fields.Keys, addr)
      ensures Unseen(seen[..]) <= Unseen(old(seen[..]))
      decreases Unseen(seen[..]), 2, 1
    {
      hide FillingObject, Unseen;
      ghost var stored := {};
      var keys := fields.Keys;
      while keys != {}
        invariant RebuiltOnce() && Unseen(seen[..]) <= Unseen(old(seen[..]))
        invariant keys <= fields.Keys && stored == fields.Keys - keys
        invariant FillingObject(values, start, Now(), fields, stored, addr)
        decreases |keys|
      {
        var key :| key in keys;
        FillField(fields, key, addr, start, stored);
        keys := keys - {key};
        stored := stored + {key};
      }
      assert stored == fields.Keys;
    }

    method FillArray(items: seq<Json>, addr: nat, ghost start: Snap)
      requires RebuiltOnce() && FillingArray(values, start, Now(), items, 0, addr)
      modifies this, cache, seen
      ensures RebuiltOnce() && FillingArray(values, start, Now(), items, |items|, addr)
      ensures Unseen(seen[..]) <= Unseen(old(seen[..]))
      decreases Unseen(seen[..]), 2, 0
    {
      for i := 0 to |items|
        invariant RebuiltOnce() && Unseen(seen[..]) <= Unseen(old(seen[..]))
        invariant FillingArray(values, start, Now(), items, i, addr)
      {
        ghost var before := Now();
        var resolved := Resolve(items[i]);
        ghost var after := Now();
        StoringItem(values, start, before, after, items, i, addr, resolved.value);
        heap := heap[addr := ArrNode(heap[addr].items[i := resolved.value])];
        assert Now() == Written(after, addr, heap[addr]);
      }
    }

    method Resolve(value: Json) returns (r: Result<Value, ParseError>)
      requires Valid()
      modifies this, cache, seen
      ensures Valid() && Grew(old(Now()), Now()) && Unseen(seen[..]) <= Unseen(old(seen[..]))
      ensures r.Success? && ChildMatches(values, Now(), value, r.value)
      decreases Unseen(seen[..]), 1, value
    {
      match value
      case Str(text) =>
        var target := Target(values, text);
        if target.Some? {
          r := Reconstruct(target.value);
        } else {
          r := Success(VStr(text));
        }
      case Arr(items) =>
        r := ResolveItems(items, value);
      case Obj(fields) =>
        r := ResolveFields(fields, value);
      case _ =>
        r := Success(Scalar(value));
    }

    /** An array written inside a cell, not as a cell of its own. */
    method ResolveItems(items: seq<Json>, ghost whole: Json) returns (r: Result<Value, ParseError>)
      requires Valid() && whole == Arr(items)
      modifies this, cache, seen
      ensures Valid() && Grew(old(Now()), Now()) && Unseen(seen[..]) <= Unseen(old(seen[..]))
      ensures r.Success? && ChildMatches(values, Now(), whole, r.value)
      decreases Unseen(seen[..]), 1, whole, 0
    {
      hide ChildMatches;
      ghost var start := Now();
      var result: seq<Value> := [];
      for i := 0 to |items|
        invariant Valid() && Grew(start, Now()) && Unseen(seen[..]) <= Unseen(old(seen[..]))
        invariant |result| == i && forall j | 0 <= j < i :: ChildMatches(values, Now(), items[j], result[j])
      {
        ghost var before := Now();
        var resolved := Resolve(items[i]);
        GrewTrans(start, before, Now());
        forall j | 0 <= j < i
          ensures ChildMatches(values, Now(), items[j], result[j])
        {
          ChildStaysMatched(values, before, Now(), items[j], result[j]);
        }
        result := result + [resolved.value];
      }
      r := AddInline(ArrNode(result), whole, start);
    }

    method ResolveFields(fields: map<string, Json>, ghost whole: Json) returns (r: Result<Value, ParseError>)
      requires Valid() && whole == Obj(fields)
      modifies this, cache, seen
      ensures Valid() && Grew(old(Now()), Now()) && Unseen(seen[..]) <= Unseen(old(seen[..]))
      ensures r.Success? && ChildMatches(values, Now(), whole, r.value)
      decreases Unseen(seen[..]), 1, whole, 0
    {
      hide ChildMatches;
      ghost var start := Now();
      var result: map<string, Value> := map[];
      var keys := fields.Keys;
      while keys != {}
        invariant Valid() && Grew(start, Now()) && Unseen(seen[..]) <= Unseen(old(seen[..]))
        invariant keys <= fields.Keys && result.Keys == fields.Keys - keys
        invariant forall k | k in result :: ChildMatches(values, Now(), fields[k], result[k])
        decreases |keys|
      {
        var key :| key in keys;
        keys := keys - {key};
        ghost var before := Now();
        var resolved := Resolve(fields[key]);
        GrewTrans(start, before, Now());
        forall k | k in result
          ensures ChildMatches(values, Now(), fields[k], result[k])
        {
          ChildStaysMatched(values, before, Now(), fields[k], result[k]);
        }
        result := result[key := resolved.value];
      }
      r := AddInline(ObjNode(result), whole, start);
    }

    method AddInline(node: Node, ghost c: Json, ghost start: Snap) returns (r: Result<Value, ParseError>)
      requires Valid() && Grew(start, Now()) && NodeMatches(values, Now(), c, node)
      modifies this`heap, this`done
      ensures Valid() && Grew(start, Now())
      ensures r.Success? && ChildMatches(values, Now(), c, r.value)
    {
      ghost var before := Now();
      AddingInline(values, before, c, node);
      done := done + {|heap|};
      heap := heap + [node];
      GrewTrans(start, before, Now());
      return Success(VRef(|heap| - 1));
    }
  }

  // ---------------------------------------------------------------- what decoding means

  /** The heap is a copy of the part of the table that the root reaches: every visited cell has one
      value of its own, and references in cells are references to those values, in cycles too. */
  ghost predicate Mirrors(values: Table, root: nat, s: Snap, x: Value) {
    && Good(values, s) && s.open == {}
    && root < |values| && s.seen[root] && s.cache[root] == x
  }

  /** The heap value `x` is the JSON value `v`. */
  ghost predicate Denotes(heap: seq<Node>, x: Value, v: Json)
    decreases v
  {
    match v
    case Obj(fields) =>
      && x.VRef? && x.addr < |heap| && heap[x.addr].ObjNode? && heap[x.addr].fields.Keys == fields.Keys
      && forall k | k in fields :: Denotes(heap, heap[x.addr].fields[k], fields[k])
    case Arr(items) =>
      && x.VRef? && x.addr < |heap| && heap[x.addr].ArrNode? && |heap[x.addr].items| == |items|
      && forall j | 0 <= j < |items| :: Denotes(heap, heap[x.addr].items[j], items[j])
    case Null => x == VNull
    case Bool(b) => x == VBool(b)
    case Num(literal) => x == VNum(literal)
    case Str(text) => x == VStr(text)
  }

  /** A heap value is at most one JSON value. */
  lemma {:induction false} DenotesIsFunctional(heap: seq<Node>, x: Value, v: Json, w: Json)
    requires Denotes(heap, x, v) && Denotes(heap, x, w)
    ensures v == w
    decreases v
  {
    if v.Obj? {
      assert w.Obj? && v.fields.Keys == w.fields.Keys;
      forall k | k in v.fields
        ensures v.fields[k] == w.fields[k]
      {
        DenotesIsFunctional(heap, heap[x.addr].fields[k], v.fields[k], w.fields[k]);
      }
      assert v.fields == w.fields;
    } else if v.Arr? {
      assert w.Arr? && |v.items| == |w.items|;
      forall j | 0 <= j < |v.items|
        ensures v.items[j] == w.items[j]
      {
        DenotesIsFunctional(heap, heap[x.addr].items[j], v.items[j], w.items[j]);
      }
      assert v.items == w.items;
    }
  }

  /** In a complete copy, a cell that stands for a value has been rebuilt as that value. */
  lemma {:induction false} CopyDenotes(values: Table, s: Snap, i: nat, v: Json)
    requires Good(values, s) && s.open == {} && i < |values| && s.seen[i]
    requires Represents(values, i, v)
    ensures Denotes(s.heap, s.cache[i], v)
    decreases v
  {
    assert CellMatches(values, s, i);
    match v
    case Obj(fields) =>
      var node := s.heap[s.cache[i].addr];
      forall k | k in fields
        ensures Denotes(s.heap, node.fields[k], fields[k])
      {
        var ref := values[i].fields[k];
        assert Refers(values, ref, fields[k]) && ChildMatches(values, s, ref, node.fields[k]);
        if !fields[k].Null? {
          CopyDenotes(values, s, Target(values, ref.text).value, fields[k]);
        }
      }
    case Arr(items) =>
      var node := s.heap[s.cache[i].addr];
      forall j | 0 <= j < |items|
        ensures Denotes(s.heap, node.items[j], items[j])
      {
        var ref := values[i].items[j];
        assert Refers(values, ref, items[j]) && ChildMatches(values, s, ref, node.items[j]);
        if !items[j].Null? {
          CopyDenotes(values, s, Target(values, ref.text).value, items[j]);
        }
      }
    case _ =>
  }

  // ---------------------------------------------------------------- parse and the round trip

  /** An earlier format puts the index of the root in front of the table, as a string. */
  predicate HasLegacyRoot(raw: Table) {
    raw != [] && (raw[0].Str? || raw[0].Null?)
  }

  function LegacyRoot(raw: Table): string
    requires HasLegacyRoot(raw)
  {
    if raw[0].Str? then raw[0].text else ""
  }

  /** Where the cells start and which of them is the root. */
  function CellsAndRoot(raw: Table): Option<(Table, nat)> {
    if raw == [] then None
    else if HasLegacyRoot(raw) then
      var root := Target(raw[1..], LegacyRoot(raw));
      if root.Some? then Some((raw[1..], root.value)) else None
    else Some((raw, 0))
  }

  /** `rebuilt` counts how often each cell was rebuilt. */
  method ParseTable(values: Table, root: int)
    returns (r: Result<Value, ParseError>, heap: seq<Node>, ghost rebuilt: multiset<nat>)
    ensures r.Success? <==> 0 <= root < |values|
    ensures r.Success? ==> exists s: Snap :: s.heap == heap && Mirrors(values, root, s, r.value)
    ensures forall i: nat :: rebuilt[i] <= 1
  {
    var decoder := new Decoder(values);
    r := decoder.Reconstruct(root);
    heap, rebuilt := decoder.heap, decoder.rebuilt;
    if r.Success? {
      assert Mirrors(values, root, decoder.Now(), r.value);
    }
  }

  /** A root index that strconv.Atoi does not read, or one that is no cell. */
  method Parse(raw: Table) returns (r: Result<Value, ParseError>, heap: seq<Node>)
    ensures r.Success? <==> CellsAndRoot(raw).Some?
    ensures raw == [] ==> r == Failure(EmptyArray)
    ensures raw != [] && r.Failure? ==>
      var text := if raw[0].Str? then raw[0].text else "";
      && (raw[0].Str? || raw[0].Null?)
      && r.error == if Atoi(text).None? then BadRootIndex(text) else RootOutOfRange(Atoi(text).value)
    ensures raw != [] && raw[0].Null? ==> r.Failure?
    ensures r.Success? ==>
      var (values, root) := CellsAndRoot(raw).value;
      && (exists s: Snap :: s.heap == heap && Mirrors(values, root, s, r.value))
      && forall v | Represents(values, root, v) :: Denotes(heap, r.value, v)
  {
    heap := [];
    if raw == [] {
      return Failure(EmptyArray), [];
    }
    ghost var rebuilt;
    if HasLegacyRoot(raw) {
      var root := Integer(LegacyRoot(raw));
      if root.None? {
        return Failure(BadRootIndex(LegacyRoot(raw))), [];
      }
      if root.value < 0 || root.value >= |raw[1..]| {
        var text := LegacyRoot(raw);
        return Failure(if Atoi(text).None? then BadRootIndex(text) else RootOutOfRange(root.value)), [];
      }
      r, heap, rebuilt := ParseTable(raw[1..], root.value);
    } else {
      r, heap, rebuilt := ParseTable(raw, 0);
    }
    ghost var (values, root) := CellsAndRoot(raw).value;
    ghost var s: Snap :| s.heap == heap && Mirrors(values, root, s, r.value);
    forall v | Represents(values, root, v)
      ensures Denotes(heap, r.value, v)
    {
      CopyDenotes(values, s, root, v);
    }
  }

  /** Parse undoes Stringify, except that a root string or null is read as a legacy root index. */
  method RoundTrip(v: Json, sharesEmptyArrays: bool) returns (r: Result<Value, ParseError>, heap: seq<Node>)
    ensures r.Success? <==> !v.Str? && !v.Null?
    ensures r.Success? ==> Denotes(heap, r.value, v)
  {
    var table := Stringify(v, sharesEmptyArrays);
    r, heap := Parse(table);
  }

  /** With the legacy root in front, every value comes back. */
  method LegacyRoundTrip(v: Json, sharesEmptyArrays: bool) returns (r: Result<Value, ParseError>, heap: seq<Node>)
    ensures r.Success? && Denotes(heap, r.value, v)
  {
    var table := Stringify(v, sharesEmptyArrays);
    assert DigitsValue("0") == Some(0);
    assert ([Str("0")] + table)[1..] == table;
    r, heap := Parse([Str("0")] + table);
  }
}
