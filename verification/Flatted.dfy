/**
 The flatted codec: a JSON value as a table of cells that refer to each other by index.
 Tables are sequences of decoded cells; the decoder builds objects and arrays on a heap, so that
 shared and cyclic cells come out as shared and cyclic references.
 */
module Flatted {
  import opened Wrappers
  import opened Text

  datatype Json =
    | Null
    | Bool(value: bool)
    | Num(literal: string)  // UseNumber keeps the literal
    | Str(text: string)
    | Arr(items: seq<Json>)
    | Obj(fields: map<string, Json>)
  {
    predicate IsContainer() {
      Arr? || Obj?
    }
  }

  type Table = seq<Json>

  // ---------------------------------------------------------------- what a table means

  /** The cell a reference string names: an integer, kept when it is an index of the table. */
  function Target(table: Table, text: string): Option<nat> {
    var n := Integer(text);
    if n.Some? && 0 <= n.value < |table| then Some(n.value) else None
  }

  /** For every table that a Go int can index, a reference is what strconv.Atoi reads, and the written
      index of a cell names that cell. */
  lemma TargetIsAtoi(table: Table, text: string, i: nat)
    requires |table| <= MAX_INT && i < |table|
    ensures Target(table, text) ==
            match Atoi(text)
            case None => None
            case Some(n) => if 0 <= n < |table| then Some(n) else None
    ensures Atoi(Itoa(i)) == Some(i) && Target(table, Itoa(i)) == Some(i)
  {
    AtoiOfItoa(i);
    IntegerOfItoa(i);
  }

  /** Cell `i` stands for the value `v`. */
  predicate Represents(table: Table, i: nat, v: Json)
    decreases v, 0
  {
    && i < |table|
    && match v
      case Obj(fields) =>
        && table[i].Obj? && table[i].fields.Keys == fields.Keys
        && forall k | k in fields :: Refers(table, table[i].fields[k], fields[k])
      case Arr(items) =>
        && table[i].Arr? && |table[i].items| == |items|
        && forall j | 0 <= j < |items| :: Refers(table, table[i].items[j], items[j])
      case _ => table[i] == v
  }

  /** `ref`, inside a container cell, stands for `v`: null is inline, all else is a reference. */
  predicate Refers(table: Table, ref: Json, v: Json)
    decreases v, 1
  {
    if v.Null? then ref.Null?
    else ref.Str? && Target(table, ref.text).Some? && Represents(table, Target(table, ref.text).value, v)
  }

  lemma {:induction false} RepresentsIsFunctional(table: Table, i: nat, v: Json, w: Json)
    requires Represents(table, i, v) && Represents(table, i, w)
    ensures v == w
    decreases v, 0
  {
    if v.Obj? {
      assert w.Obj? && v.fields.Keys == w.fields.Keys;
      forall k | k in v.fields
        ensures v.fields[k] == w.fields[k]
      {
        RefersIsFunctional(table, table[i].fields[k], v.fields[k], w.fields[k]);
      }
      assert v.fields == w.fields;
    } else if v.Arr? {
      assert w.Arr? && |v.items| == |w.items|;
      forall j | 0 <= j < |v.items|
        ensures v.items[j] == w.items[j]
      {
        RefersIsFunctional(table, table[i].items[j], v.items[j], w.items[j]);
      }
      assert v.items == w.items;
    }
  }

  lemma {:induction false} RefersIsFunctional(table: Table, ref: Json, v: Json, w: Json)
    requires Refers(table, ref, v) && Refers(table, ref, w)
    ensures v == w
    decreases v, 1
  {
    if !v.Null? && !w.Null? {
      RepresentsIsFunctional(table, Target(table, ref.text).value, v, w);
    }
  }

  /** `later` has more cells, and may have filled in cells that were null. */
  predicate Fills(table: Table, later: Table) {
    && |table| <= |later|
    && forall i | 0 <= i < |table| :: table[i] != Null ==> later[i] == table[i]
  }

  lemma {:induction false} FillingKeepsMeaning(table: Table, later: Table, i: nat, v: Json)
    requires Fills(table, later) && v != Null && Represents(table, i, v)
    ensures Represents(later, i, v)
    decreases v, 0
  {
    match v
    case Obj(fields) =>
      forall k | k in fields
        ensures Refers(later, later[i].fields[k], fields[k])
      {
        FillingKeepsReference(table, later, table[i].fields[k], fields[k]);
      }
    case Arr(items) =>
      forall j | 0 <= j < |items|
        ensures Refers(later, later[i].items[j], items[j])
      {
        FillingKeepsReference(table, later, table[i].items[j], items[j]);
      }
    case _ =>
  }

  lemma {:induction false} FillingKeepsReference(table: Table, later: Table, ref: Json, v: Json)
    requires Fills(table, later) && Refers(table, ref, v)
    ensures Refers(later, ref, v)
    decreases v, 1
  {
    if !v.Null? {
      FillingKeepsMeaning(table, later, Target(table, ref.text).value, v);
    }
  }

  // ---------------------------------------------------------------- stringify

  /** Flattens a freshly decoded value, in which every object and every non-empty array has its own
      identity. Whether empty arrays share one is the allocator's choice. */
  class Stringifier {
    const sharesEmptyArrays: bool
    var values: Table
    var emptyArray: Option<nat>

    predicate Valid()
      reads this
    {
      emptyArray.Some? ==> emptyArray.value < |values| && values[emptyArray.value] == Arr([])
    }

    constructor (sharesEmptyArrays: bool)
      ensures Valid() && values == [] && this.sharesEmptyArrays == sharesEmptyArrays
    {
      this.sharesEmptyArrays := sharesEmptyArrays;
      values, emptyArray := [], None;
    }

    method Add(cell: Json) returns (index: nat)
      requires Valid()
      modifies this`values
      ensures Valid() && index == |old(values)| && values == old(values) + [cell]
    {
      index := |values|;
      values := values + [cell];
    }

    method Flatten(v: Json) returns (index: nat)
      requires Valid()
      modifies this
      ensures Valid() && |old(values)| <= |values| && values[..|old(values)|] == old(values)
      ensures Represents(values, index, v)
      ensures old(values) == [] ==> index == 0
      ensures !v.IsContainer() ==> values == old(values) + [v]
      decreases v, 0
    {
      match v
      case Obj(fields) =>
        index := Add(Null);
        var cell := EncodeObject(fields, v);
        ghost var before := values;
        values := values[index := cell];
        forall k | k in fields
          ensures Refers(values, cell.fields[k], fields[k])
        {
          FillingKeepsReference(before, values, cell.fields[k], fields[k]);
        }
      case Arr(items) =>
        if items == [] && sharesEmptyArrays && emptyArray.Some? {
          return emptyArray.value;
        }
        index := Add(Null);
        var cell := EncodeArray(items, v);
        ghost var before := values;
        values := values[index := cell];
        forall j | 0 <= j < |items|
          ensures Refers(values, cell.items[j], items[j])
        {
          FillingKeepsReference(before, values, cell.items[j], items[j]);
        }
        if items == [] {
          emptyArray := Some(index);
        }
      case _ =>
        index := Add(v);
    }

    method EncodeObject(fields: map<string, Json>, ghost whole: Json) returns (cell: Json)
      requires Valid() && whole == Obj(fields)
      modifies this
      ensures Valid() && |old(values)| <= |values| && values[..|old(values)|] == old(values)
      ensures cell.Obj? && cell.fields.Keys == fields.Keys
      ensures forall k | k in fields :: Refers(values, cell.fields[k], fields[k])
      decreases whole, -1
    {
      var result: map<string, Json> := map[];
      var keys := fields.Keys;
      while keys != {}
        invariant Valid() && |old(values)| <= |values| && values[..|old(values)|] == old(values)
        invariant keys <= fields.Keys && result.Keys == fields.Keys - keys
        invariant forall k | k in result :: Refers(values, result[k], fields[k])
        decreases |keys|
      {
        var key :| key in keys;  // any iteration order
        ghost var before := values;
        var ref := FlattenReference(fields[key]);
        forall k | k in result
          ensures Refers(values, result[k], fields[k])
        {
          FillingKeepsReference(before, values, result[k], fields[k]);
        }
        result := result[key := ref];
        keys := keys - {key};
      }
      cell := Obj(result);
    }

    method EncodeArray(items: seq<Json>, ghost whole: Json) returns (cell: Json)
      requires Valid() && whole == Arr(items)
      modifies this
      ensures Valid() && |old(values)| <= |values| && values[..|old(values)|] == old(values)
      ensures cell.Arr? && |cell.items| == |items|
      ensures forall j | 0 <= j < |items| :: Refers(values, cell.items[j], items[j])
      decreases whole, -1
    {
      var result: seq<Json> := [];
      for i := 0 to |items|
        invariant Valid() && |old(values)| <= |values| && values[..|old(values)|] == old(values)
        invariant |result| == i
        invariant forall j | 0 <= j < i :: Refers(values, result[j], items[j])
      {
        ghost var before := values;
        var ref := FlattenReference(items[i]);
        forall j | 0 <= j < i
          ensures Refers(values, result[j], items[j])
        {
          FillingKeepsReference(before, values, result[j], items[j]);
        }
        result := result + [ref];
      }
      cell := Arr(result);
    }

    method FlattenReference(v: Json) returns (ref: Json)
      requires Valid()
      modifies this
      ensures Valid() && |old(values)| <= |values| && values[..|old(values)|] == old(values)
      ensures Refers(values, ref, v)
      decreases v, 1
    {
      if v.Null? {
        return Null;
      }
      var index := Flatten(v);
      IntegerOfItoa(index);
      ref := Str(Itoa(index));
    }
  }

  method Stringify(v: Json, sharesEmptyArrays: bool) returns (table: Table)
    ensures Represents(table, 0, v)
    ensures !v.IsContainer() ==> table == [v]
  {
    var state := new Stringifier(sharesEmptyArrays);
    var root := state.Flatten(v);
    table := state.values;
  }
}
