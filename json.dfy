/** The Python values `json.loads` produces from a model's reply, and the few
    operations the services apply to them without checking their shape first. */
module Json {
  import opened Wrappers
  import opened PyStr

  /** A decoded JSON value. An object keeps its members in the order written,
      duplicates included; `Lookup` and `Keys` give the dictionary `json.loads` builds. */
  datatype Json =
    | JNull
    | JBool(b: bool)
    | JInt(i: int)
    | JFloat(f: real)
    | JStr(s: string)
    | JArr(items: seq<Json>)
    | JObj(members: seq<(string, Json)>)

  /** `d.get(key)`: the value of the last member named `key`, since a later
      duplicate overwrites an earlier one. */
  function Lookup(members: seq<(string, Json)>, key: string): (r: Option<Json>)
    ensures r.None? <==> forall i :: 0 <= i < |members| ==> members[i].0 != key
    ensures r.Some? ==> exists i :: (0 <= i < |members| && members[i] == (key, r.value) &&
      forall j :: i < j < |members| ==> members[j].0 != key)
  {
    if members == [] then None
    else
      var last := members[|members| - 1];
      if last.0 == key then Some(last.1)
      else
        var init := members[..|members| - 1];
        var r := Lookup(init, key);
        assert forall i :: 0 <= i < |init| ==> init[i] == members[i];
        assert r.Some? ==> exists i :: (0 <= i < |members| && members[i] == (key, r.value) &&
          forall j :: i < j < |members| ==> members[j].0 != key) by {
          if r.Some? {
            var i :| 0 <= i < |init| && init[i] == (key, r.value) &&
              forall j :: i < j < |init| ==> init[j].0 != key;
            assert forall j :: i < j < |members| ==> members[j].0 != key;
          }
        }
        r
  }

  /** `d.get(key, default)`. */
  function Get(members: seq<(string, Json)>, key: string, default: Json): Json
  {
    match Lookup(members, key)
    case Some(v) => v
    case None => default
  }

  /** Whether `key` is among `names`. */
  predicate Named(names: seq<string>, key: string)
  {
    exists i :: 0 <= i < |names| && names[i] == key
  }

  /** The keys of the dictionary, in the order they were first written. */
  function KeysFrom(members: seq<(string, Json)>, seen: seq<string>): (r: seq<string>)
    ensures forall i, j :: 0 <= i < j < |r| ==> r[i] != r[j]
    ensures forall i :: 0 <= i < |r| ==> !Named(seen, r[i])
  {
    if members == [] then []
    else if Named(seen, members[0].0) then
      KeysFrom(members[1..], seen)
    else
      var k := members[0].0;
      var rest := KeysFrom(members[1..], seen + [k]);
      assert forall i :: 0 <= i < |rest| ==> rest[i] != k by {
        forall i | 0 <= i < |rest| ensures rest[i] != k {
          assert (seen + [k])[|seen|] == k;
        }
      }
      assert forall x :: !Named(seen + [k], x) ==> !Named(seen, x) by {
        forall x | Named(seen, x) ensures Named(seen + [k], x) {
          var i :| 0 <= i < |seen| && seen[i] == x;
          assert (seen + [k])[i] == x;
        }
      }
      var r := [k] + rest;
      assert forall i :: 1 <= i < |r| ==> r[i] == rest[i - 1];
      r
  }

  function Keys(members: seq<(string, Json)>): (r: seq<string>)
    ensures forall i, j :: 0 <= i < j < |r| ==> r[i] != r[j]
  {
    KeysFrom(members, [])
  }

  /** Every key written in `members` and not in `seen` is met while iterating. */
  lemma {:induction false} KeysFromComplete(members: seq<(string, Json)>, seen: seq<string>)
    ensures forall k :: k in KeysFrom(members, seen) <==>
      !Named(seen, k) && exists i :: 0 <= i < |members| && members[i].0 == k
    decreases |members|
  {
    if members != [] {
      var k0 := members[0].0;
      var tail := members[1..];
      var seen' := if Named(seen, k0) then seen else seen + [k0];
      KeysFromComplete(tail, seen');
      forall k ensures k in KeysFrom(members, seen) <==>
        !Named(seen, k) && exists i :: 0 <= i < |members| && members[i].0 == k
      {
        if k in KeysFrom(members, seen) {
          if k == k0 {
            assert members[0].0 == k;
          } else {
            assert k in KeysFrom(tail, seen');
            var i :| 0 <= i < |tail| && tail[i].0 == k;
            assert members[i + 1].0 == k;
          }
        }
        if !Named(seen, k) && exists i :: 0 <= i < |members| && members[i].0 == k {
          var i :| 0 <= i < |members| && members[i].0 == k;
          if k != k0 {
            assert tail[i - 1].0 == k;
            assert forall m :: 0 <= m < |seen'| ==> seen'[m] != k by {
              forall m | 0 <= m < |seen'| ensures seen'[m] != k {
                if m < |seen| {
                  assert seen'[m] == seen[m];
                }
              }
            }
          }
        }
      }
    }
  }

  /** Iterating a dictionary meets exactly the keys written in it. */
  lemma KeysComplete(members: seq<(string, Json)>)
    ensures forall k :: k in Keys(members) <==> exists i :: 0 <= i < |members| && members[i].0 == k
  {
    KeysFromComplete(members, []);
  }

  /** `type(v).__name__`. */
  function TypeName(v: Json): string
  {
    match v
    case JNull => "NoneType"
    case JBool(_) => "bool"
    case JInt(_) => "int"
    case JFloat(_) => "float"
    case JStr(_) => "str"
    case JArr(_) => "list"
    case JObj(_) => "dict"
  }

  /** The message of the `AttributeError` raised by `v.get(...)` on a value that is
      not a dictionary. */
  function NoAttributeGet(v: Json): string
  {
    "'" + TypeName(v) + "' object has no attribute 'get'"
  }

  /** What `for x in v` visits: the items of a list, the keys of a dictionary, the
      characters of a string; anything else raises `TypeError`. */
  function Iterate(v: Json): (r: Result<seq<Json>, string>)
    ensures r.Failure? <==> !(v.JArr? || v.JObj? || v.JStr?)
    ensures v.JArr? ==> r == Success(v.items)
    ensures v.JStr? ==> (r.Success? && |r.value| == |v.s| &&
      forall i :: 0 <= i < |v.s| ==> r.value[i] == JStr([v.s[i]]))
    ensures v.JObj? ==> (r.Success? && |r.value| == |Keys(v.members)| &&
      forall i :: 0 <= i < |Keys(v.members)| ==> r.value[i] == JStr(Keys(v.members)[i]))
  {
    match v
    case JArr(items) => Success(items)
    case JObj(members) => Success(seq(|Keys(members)|, i requires 0 <= i < |Keys(members)| => JStr(Keys(members)[i])))
    case JStr(s) => Success(seq(|s|, i requires 0 <= i < |s| => JStr([s[i]])))
    case _ => Failure("'" + TypeName(v) + "' object is not iterable")
  }

  /** `len(v)`, defined for strings, lists and dictionaries. */
  function Len(v: Json): (r: Result<nat, string>)
    ensures r.Success? <==> (v.JArr? || v.JObj? || v.JStr?)
  {
    match v
    case JArr(items) => Success(|items|)
    case JObj(members) => Success(|Keys(members)|)
    case JStr(s) => Success(|s|)
    case _ => Failure("object of type '" + TypeName(v) + "' has no len()")
  }

  /** Values Python compares as numbers: `bool` counts as 0 or 1. */
  predicate IsNumber(v: Json)
  {
    v.JInt? || v.JFloat? || v.JBool?
  }

  function NumberValue(v: Json): real
    requires IsNumber(v)
  {
    match v
    case JInt(i) => i as real
    case JFloat(f) => f
    case JBool(b) => if b then 1.0 else 0.0
  }

  /** `a == b`: numbers compare by value whatever their type; other values by structure. */
  predicate PyEq(a: Json, b: Json)
  {
    if IsNumber(a) && IsNumber(b) then NumberValue(a) == NumberValue(b) else a == b
  }

  /** `x in xs` on a list. */
  predicate PyIn(x: Json, xs: seq<Json>)
  {
    exists i :: 0 <= i < |xs| && PyEq(x, xs[i])
  }
}
