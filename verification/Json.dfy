/**
 JSON documents as Python holds them: an object is a list of entries in
 insertion order, because rewriting a key keeps its place and truncated keys
 can collide.
 */
module Json {
  import opened Wrappers

  datatype Json =
    | Null
    | Bool(b: bool)
    | Int(n: int)
    | Float(x: real)
    | Str(s: string)
    | Arr(items: seq<Json>)
    | Obj(entries: seq<Entry>)

  datatype Entry = Entry(key: string, value: Json)

  /** `bool(value)`. */
  predicate Truthy(j: Json) {
    match j
    case Null => false
    case Bool(b) => b
    case Int(n) => n != 0
    case Float(x) => x != 0.0
    case Str(s) => s != ""
    case Arr(items) => items != []
    case Obj(entries) => entries != []
  }

  /** The integer of a value that is an `int`; booleans are integers too. */
  function AsInt(j: Option<Json>): Option<int> {
    match j
    case Some(Int(n)) => Some(n)
    case Some(Bool(b)) => Some(if b then 1 else 0)
    case _ => None
  }

  function OrNull(j: Option<Json>): Json {
    match j
    case Some(v) => v
    case None => Null
  }

  function Get(entries: seq<Entry>, key: string): Option<Json> {
    if entries == [] then None
    else if entries[0].key == key then Some(entries[0].value)
    else Get(entries[1..], key)
  }

  /** `dict[key] = value`: in place when the key is there, at the end otherwise. */
  function Set(entries: seq<Entry>, key: string, value: Json): seq<Entry> {
    if entries == [] then [Entry(key, value)]
    else if entries[0].key == key then [Entry(key, value)] + entries[1..]
    else [entries[0]] + Set(entries[1..], key, value)
  }

  /** `dict.pop(key, None)`. */
  function Remove(entries: seq<Entry>, key: string): seq<Entry> {
    if entries == [] then []
    else if entries[0].key == key then Remove(entries[1..], key)
    else [entries[0]] + Remove(entries[1..], key)
  }

  /** A Python dict has one entry a key. */
  predicate Distinct(entries: seq<Entry>) {
    forall i, j :: 0 <= i < j < |entries| ==> entries[i].key != entries[j].key
  }

  lemma {:induction false} GetSet(entries: seq<Entry>, key: string, value: Json, other: string)
    ensures Get(Set(entries, key, value), other) == if other == key then Some(value) else Get(entries, other)
  {
    if entries != [] && entries[0].key != key {
      GetSet(entries[1..], key, value, other);
    }
  }

  lemma {:induction false} GetRemove(entries: seq<Entry>, key: string, other: string)
    ensures Get(Remove(entries, key), other) == if other == key then None else Get(entries, other)
  {
    if entries != [] {
      GetRemove(entries[1..], key, other);
    }
  }

  /** Writing back the value that is there changes nothing. */
  lemma {:induction false} SetSame(entries: seq<Entry>, key: string, value: Json)
    requires Get(entries, key) == Some(value)
    ensures Set(entries, key, value) == entries
  {
    if entries[0].key != key {
      SetSame(entries[1..], key, value);
    }
  }

  lemma {:induction false} RemoveAbsent(entries: seq<Entry>, key: string)
    requires Get(entries, key).None?
    ensures Remove(entries, key) == entries
  {
    if entries != [] {
      RemoveAbsent(entries[1..], key);
    }
  }

  lemma {:induction false} GetIsEntry(entries: seq<Entry>, key: string)
    ensures Get(entries, key).Some? ==>
              exists i :: 0 <= i < |entries| && entries[i] == Entry(key, Get(entries, key).value)
    ensures Get(entries, key).None? <==> forall i :: 0 <= i < |entries| ==> entries[i].key != key
  {
    if entries != [] {
      if entries[0].key == key {
        assert entries[0] == Entry(key, Get(entries, key).value);
      } else {
        GetIsEntry(entries[1..], key);
        if Get(entries, key).Some? {
          var i :| 0 <= i < |entries| - 1 && entries[1..][i] == Entry(key, Get(entries, key).value);
          assert entries[i + 1] == entries[1..][i];
        } else {
          assert forall i :: 1 <= i < |entries| ==> entries[i] == entries[1..][i - 1];
        }
      }
    }
  }

  /** The first entry of a key is the one looked up. */
  lemma {:induction false} GetAt(entries: seq<Entry>, i: nat)
    requires i < |entries| && forall j :: 0 <= j < i ==> entries[j].key != entries[i].key
    ensures Get(entries, entries[i].key) == Some(entries[i].value)
  {
    if i > 0 {
      GetAt(entries[1..], i - 1);
    }
  }

  lemma SingleEntry(entry: Entry)
    ensures forall key :: Get([entry], key) == if key == entry.key then Some(entry.value) else None
  {
    assert [entry][1..] == [];
  }

  /** A value found in an object is a smaller document. */
  lemma GetSmaller(j: Json, key: string)
    requires j.Obj? && Get(j.entries, key).Some?
    ensures Get(j.entries, key).value < j
  {
    GetIsEntry(j.entries, key);
    var i :| 0 <= i < |j.entries| && j.entries[i] == Entry(key, Get(j.entries, key).value);
    assert j.entries[i] < j;
    assert j.entries[i].value < j.entries[i];
  }

  /** Assigns a value when there is one. */
  function Put(entries: seq<Entry>, key: string, value: Option<Json>): seq<Entry> {
    match value
    case None => entries
    case Some(v) => Set(entries, key, v)
  }

  lemma GetPut(entries: seq<Entry>, key: string, value: Option<Json>, other: string)
    ensures Get(Put(entries, key, value), other)
         == if other == key && value.Some? then value else Get(entries, other)
  {
    hide Get, Set;
    if value.Some? { GetSet(entries, key, value.value, other); }
  }

  lemma PutSame(entries: seq<Entry>, key: string, value: Option<Json>)
    requires Get(entries, key) == value
    ensures Put(entries, key, value) == entries
  {
    hide Get, Set;
    if value.Some? { SetSame(entries, key, value.value); }
  }

  lemma {:induction false} SetAppends(entries: seq<Entry>, key: string, value: Json)
    requires Get(entries, key).None?
    ensures Set(entries, key, value) == entries + [Entry(key, value)]
  {
    if entries != [] {
      SetAppends(entries[1..], key, value);
      assert [entries[0]] + entries[1..] == entries;
    }
  }

  /** Assignment replaces one entry of the key or appends one. */
  lemma {:induction false} SetShape(entries: seq<Entry>, key: string, value: Json)
    ensures if Get(entries, key).None? then Set(entries, key, value) == entries + [Entry(key, value)]
            else exists p :: 0 <= p < |entries| && entries[p].key == key
                          && Set(entries, key, value) == entries[p := Entry(key, value)]
  {
    if Get(entries, key).None? {
      SetAppends(entries, key, value);
    } else if entries[0].key == key {
      assert Set(entries, key, value) == entries[0 := Entry(key, value)];
    } else {
      SetShape(entries[1..], key, value);
      var p :| 0 <= p < |entries| - 1 && entries[1..][p].key == key
            && Set(entries[1..], key, value) == entries[1..][p := Entry(key, value)];
      assert entries[p + 1].key == key;
      assert Set(entries, key, value) == entries[p + 1 := Entry(key, value)];
    }
  }

  /** Assigning leaves one entry a key, and adds no entry but its own. */
  lemma SetDistinct(entries: seq<Entry>, key: string, value: Json)
    requires Distinct(entries)
    ensures Distinct(Set(entries, key, value))
    ensures forall i :: 0 <= i < |Set(entries, key, value)| ==>
              Set(entries, key, value)[i] == Entry(key, value) || Set(entries, key, value)[i] in entries
  {
    hide Get, Set;
    SetShape(entries, key, value);
    GetIsEntry(entries, key);
  }
}

/** Exceptions as JSON objects linked by `cause`. */
module Exceptions {
  import opened Wrappers
  import opened Json

  /** The next exception of the chain, when `cause` is an object. */
  function Cause(x: Json): (cause: Option<Json>)
    requires x.Obj?
    ensures cause.Some? ==> cause.value.Obj? && cause.value < x && Get(x.entries, "cause") == cause
  {
    match Get(x.entries, "cause")
    case Some(Obj(entries)) => GetSmaller(x, "cause"); Some(Obj(entries))
    case _ => None
  }

  function Depth(x: Json): nat
    requires x.Obj?
    decreases x
  {
    match Cause(x)
    case None => 1
    case Some(cause) => 1 + Depth(cause)
  }

  /** The exception reached after following at most `steps` causes. */
  function Walk(x: Json, steps: nat): (root: Json)
    requires x.Obj?
    ensures root.Obj?
    decreases steps
  {
    if steps == 0 then x
    else match Cause(x)
      case None => x
      case Some(cause) => Walk(cause, steps - 1)
  }

  /** The end of the chain. */
  function Root(x: Json): (root: Json)
    requires x.Obj?
    ensures root.Obj? && Cause(root).None?
    decreases x
  {
    match Cause(x)
    case None => x
    case Some(cause) => Root(cause)
  }

  /** Enough steps reach the root, and only then is nothing left to follow. */
  lemma {:induction false} WalkReachesRoot(x: Json, steps: nat)
    requires x.Obj?
    ensures steps + 1 >= Depth(x) ==> Walk(x, steps) == Root(x)
    ensures Cause(Walk(x, steps)).None? <==> steps + 1 >= Depth(x)
    decreases x
  {
    if steps > 0 && Cause(x).Some? {
      WalkReachesRoot(Cause(x).value, steps - 1);
    }
  }
}
