/**
 * The object registry of models/engine/file_storage.py: one dictionary from
 * "<ClassName>.<id>" to a model instance (or to None, which `reload` stores for
 * records it cannot rebuild), the attribute-update rule, and an abstract
 * `save`, which records a snapshot of the registry instead of writing JSON.
 */
module Storage {
  import opened PyValues

  /** The names of the seven registered model classes (`__MODELS`). */
  const ModelNames: seq<string> := ["BaseModel", "User", "State", "City", "Amenity", "Place", "Review"]

  predicate IsModelName(name: string)
  {
    name in ModelNames
  }

  const NoInstanceFound: string := "** no instance found **"
  const ClassDoesNotExist: string := "** class doesn't exist **"

  /** A model instance.  `kind` is `obj.__class__.__name__`; `attrs` holds
      every attribute `hasattr`/`getattr` find on it, its methods included. */
  class Entity {
    const kind: string
    var attrs: map<string, Value>

    constructor (kind: string, attrs: map<string, Value>)
      ensures this.kind == kind && this.attrs == attrs
    {
      this.kind := kind;
      this.attrs := attrs;
    }
  }

  /** What a saved snapshot records of one instance. */
  datatype View = View(kind: string, attrs: map<string, Value>)

  /** A lookup result together with the lines it printed. */
  datatype Reply<T> = Reply(value: Option<T>, printed: seq<string>)

  /** Attributes every model instance has through its classes. */
  const InheritedAttrs: map<string, Value> := map[
    "__class__" := Callable("<class>"),
    "__init__" := Callable("<bound method __init__>"),
    "__str__" := Callable("<bound method __str__>"),
    "save" := Callable("<bound method save>"),
    "to_dict" := Callable("<bound method to_dict>")
  ]

  /** The attributes of an instance created with no arguments: a fresh id and
      two timestamps read from the clock. */
  function FreshAttrs(id: string, now: string): map<string, Value>
  {
    InheritedAttrs + map[
      "id" := Str(id),
      "created_at" := Other("datetime", now, true),
      "updated_at" := Other("datetime", now, true)]
  }

  predicate Distinct<T(==)>(s: seq<T>)
  {
    forall i, j :: 0 <= i < j < |s| ==> s[i] != s[j]
  }

  function IndexOf<T(==)>(s: seq<T>, x: T): (i: nat)
    requires x in s
    ensures i < |s| && s[i] == x && x !in s[..i]
  {
    if s[0] == x then 0 else 1 + IndexOf(s[1..], x)
  }

  /** `s` with the element at `x`'s position taken out, the rest in order. */
  function Without<T(==)>(s: seq<T>, x: T): (r: seq<T>)
    requires x in s
  {
    var i := IndexOf(s, x);
    s[..i] + s[i + 1..]
  }

  lemma WithoutKeepsOthers<T>(s: seq<T>, x: T)
    requires Distinct(s) && x in s
    ensures Distinct(Without(s, x))
    ensures forall y :: y in Without(s, x) <==> y in s && y != x
  {
    var i := IndexOf(s, x);
    var r := Without(s, x);
    assert forall j :: 0 <= j < |r| ==> r[j] == (if j < i then s[j] else s[j + 1]);
    forall y | y in s && y != x ensures y in r {
      var j :| 0 <= j < |s| && s[j] == y;
      if j < i { assert r[j] == y; } else { assert r[j - 1] == y; }
    }
  }

  lemma {:induction false} DistinctCard<T>(s: seq<T>)
    requires Distinct(s)
    ensures |set x | x in s| == |s|
  {
    if s != [] {
      var rest := s[1..];
      assert Distinct(rest);
      DistinctCard(rest);
      assert (set x | x in s) == {s[0]} + (set x | x in rest);
      assert s[0] !in rest;
    }
  }

  // ---------------------------------------------------------------------
  // Keys

  /** `_get_obj_key`: None when the model name or the id is falsy. */
  function ObjKey(modelName: string, id: Value): (r: Option<string>)
    ensures r.Some? <==> modelName != "" && Truthy(id)
    ensures r.Some? ==> modelName + "." <= r.value && r.value[|modelName| + 1..] == StrOf(id)
  {
    if modelName == "" || !Truthy(id) then None else Some(modelName + "." + StrOf(id))
  }

  predicate NoDot(s: string)
  {
    forall i :: 0 <= i < |s| ==> s[i] != '.'
  }

  /** The position of the first '.' in `s`, or `|s|`. */
  function DotIndex(s: string): (i: nat)
    ensures i <= |s| && NoDot(s[..i]) && (i < |s| ==> s[i] == '.')
  {
    if s == [] then 0 else if s[0] == '.' then 0 else 1 + DotIndex(s[1..])
  }

  /** A key split at its first dot: class name and id text. */
  function SplitKey(key: string): (string, string)
  {
    var i := DotIndex(key);
    if i < |key| then (key[..i], key[i + 1..]) else (key, "")
  }

  lemma {:induction false} DotIndexAfterName(a: string, rest: string)
    requires NoDot(a)
    ensures DotIndex(a + "." + rest) == |a|
  {
    if a != [] {
      assert (a + "." + rest)[1..] == a[1..] + "." + rest;
      DotIndexAfterName(a[1..], rest);
    }
  }

  /** A key built from a dot-free class name splits back into the class name
      and the id's text. */
  lemma KeyRoundTrip(modelName: string, id: Value)
    requires NoDot(modelName) && ObjKey(modelName, id).Some?
    ensures SplitKey(ObjKey(modelName, id).value) == (modelName, StrOf(id))
  {
    var k := ObjKey(modelName, id).value;
    DotIndexAfterName(modelName, StrOf(id));
    assert k == modelName + "." + StrOf(id);
    assert k[..|modelName|] == modelName;
  }

  /** Two keys built from dot-free class names are equal only when the class
      names and the ids' texts are: keys are unique per instance. */
  lemma KeyInjective(a: string, x: Value, b: string, y: Value)
    requires NoDot(a) && NoDot(b)
    requires ObjKey(a, x).Some? && ObjKey(a, x) == ObjKey(b, y)
    ensures a == b && StrOf(x) == StrOf(y)
  {
    KeyRoundTrip(a, x);
    KeyRoundTrip(b, y);
  }

  lemma ModelNamesHaveNoDot(name: string)
    requires IsModelName(name)
    ensures NoDot(name)
  {
  }

  /** Two instances of registered classes share a key only when they have
      the same class and ids with the same text. */
  lemma RegisteredKeyInjective(a: string, x: Value, b: string, y: Value)
    requires IsModelName(a) && IsModelName(b)
    requires ObjKey(a, x).Some? && ObjKey(a, x) == ObjKey(b, y)
    ensures a == b && StrOf(x) == StrOf(y)
  {
    ModelNamesHaveNoDot(a);
    ModelNamesHaveNoDot(b);
    KeyInjective(a, x, b, y);
  }

  /** The registered model names start with seven different letters. */
  lemma ModelNameByInitial(a: string, b: string)
    requires IsModelName(a) && IsModelName(b) && a[0] == b[0]
    ensures a == b
  {
  }

  /** No registered model name is a prefix of another one, so for a key built
      from a model name the prefix test of `count` picks exactly that model. */
  lemma PrefixOfModelKey(a: string, b: string, rest: string)
    requires IsModelName(a) && IsModelName(b)
    ensures a <= b + "." + rest <==> a == b
  {
    var k := b + "." + rest;
    if a <= k {
      assert a[0] == k[0] == b[0];
      ModelNameByInitial(a, b);
    }
  }

  /** `get_model_class`: the class of a registered name, or a diagnostic. */
  function GetModelClass(name: string): (r: Reply<string>)
    ensures r.value.Some? <==> IsModelName(name)
    ensures r.value.Some? ==> r.value.value == name && r.printed == []
    ensures r.value.None? ==> r.printed == [ClassDoesNotExist]
  {
    if IsModelName(name) then Reply(Some(name), []) else Reply(None, [ClassDoesNotExist])
  }

  // ---------------------------------------------------------------------
  // The attribute-update rule of `_update_obj_attribute`

  /** What one attribute update does: nothing, set the attribute to a value,
      or raise. */
  datatype Change = Keep | Assign(v: Value) | Fail(exc: Exception)

  /** `isinstance(value, type(current))`; bool is a subclass of int. */
  predicate IsInstanceOfTypeOf(value: Value, current: Value)
  {
    match current
    case Str(_) => value.Str?
    case Int(_) => value.Int? || value.Bool?
    case Bool(_) => value.Bool?
    case Callable(_) => value.Callable?
    case Other(t, _, _) => value.Other? && value.typeName == t
  }

  /** `type(a) is type(b)` */
  predicate SameType(a: Value, b: Value)
  {
    match a
    case Str(_) => b.Str?
    case Int(_) => b.Int?
    case Bool(_) => b.Bool?
    case Callable(_) => b.Callable?
    case Other(t, _, _) => b.Other? && b.typeName == t
  }

  /** `type(current)(value)`, guarded by the isinstance test. */
  function Coerce(current: Value, value: Value): Change
  {
    if !value.Str? && !IsInstanceOfTypeOf(value, current) then Keep
    else
      match current
      case Str(_) => Assign(value)
      case Int(_) =>
        (match value
         case Str(s) => (match ParseInt(s) case Some(n) => Assign(Int(n)) case None => Fail(ValueError))
         case Int(i) => Assign(Int(i))
         case Bool(b) => Assign(Int(if b then 1 else 0))
         case _ => Keep)
      case Bool(_) => Assign(Bool(Truthy(value)))
      case Callable(_) => Keep
      case Other(_, _, _) => Fail(ForeignConversion)
  }

  predicate StartsWithUnderscore(name: string)
  {
    "_" <= name
  }

  /** `_update_obj_attribute` on an instance whose attributes are `attrs`. */
  function AttributeUpdate(attrs: map<string, Value>, name: string, value: Value): (c: Change)
    // an attribute the object lacks is created with the raw value, whatever its name
    ensures name !in attrs ==> c == Assign(value)
    // an existing private or callable attribute is never touched
    ensures name in attrs && (StartsWithUnderscore(name) || attrs[name].Callable?) ==> c == Keep
    // an existing attribute keeps its type
    ensures name in attrs && c.Assign? ==> SameType(c.v, attrs[name])
    // only a string or a value of the attribute's own type is taken
    ensures name in attrs && !c.Keep? ==> value.Str? || IsInstanceOfTypeOf(value, attrs[name])
    // a raise comes only from converting a string: int() of a non-literal, or a foreign type
    ensures c.Fail? ==>
      && name in attrs
      && ((attrs[name].Int? && c.exc == ValueError && value.Str? && ParseInt(value.s).None?) ||
          (attrs[name].Other? && c.exc == ForeignConversion))
    // otherwise the attribute becomes `type(attribute)(value)`:
    // str(s) is s, and a non-str value of another type is refused
    ensures name in attrs && !StartsWithUnderscore(name) && attrs[name].Str? ==>
      c == (if value.Str? then Assign(value) else Keep)
    // bool(v) is the truthiness of v, so bool("False") is True; an int is not a bool
    ensures name in attrs && !StartsWithUnderscore(name) && attrs[name].Bool? ==>
      c == (if value.Str? || value.Bool? then Assign(Bool(Truthy(value))) else Keep)
    // int(s) parses an int literal or raises ValueError; int(b) is 0 or 1
    ensures name in attrs && !StartsWithUnderscore(name) && attrs[name].Int? ==>
      c == (match value
            case Str(s) => if ParseInt(s).Some? then Assign(Int(ParseInt(s).value)) else Fail(ValueError)
            case Int(i) => Assign(Int(i))
            case Bool(b) => Assign(Int(if b then 1 else 0))
            case _ => Keep)
    // a datetime or other foreign attribute cannot be converted from a str or its own type
    ensures name in attrs && !StartsWithUnderscore(name) && attrs[name].Other? ==>
      c == (if value.Str? || IsInstanceOfTypeOf(value, attrs[name]) then Fail(ForeignConversion) else Keep)
  {
    if name !in attrs then Assign(value)
    else if StartsWithUnderscore(name) then Keep
    else if attrs[name].Callable? then Keep
    else Coerce(attrs[name], value)
  }

  /** The attributes after a change. */
  function Applied(attrs: map<string, Value>, name: string, c: Change): map<string, Value>
  {
    match c
    case Assign(v) => attrs[name := v]
    case _ => attrs
  }

  /** An int attribute set from the text of an int takes that int; set from a
      text with no digit, the update raises ValueError. */
  lemma IntAttributeFromText(attrs: map<string, Value>, name: string, n: int)
    requires name in attrs && attrs[name].Int? && !StartsWithUnderscore(name)
    ensures AttributeUpdate(attrs, name, Str(IntToString(n))) == Assign(Int(n))
  {
    ParseIntRoundTrip(n);
    assert Coerce(attrs[name], Str(IntToString(n))) == Assign(Int(n));
  }

  lemma IntAttributeFromNonNumber(attrs: map<string, Value>, name: string, s: string)
    requires name in attrs && attrs[name].Int? && !StartsWithUnderscore(name)
    requires forall i :: 0 <= i < |s| ==> !IsDigit(s[i])
    ensures AttributeUpdate(attrs, name, Str(s)) == Fail(ValueError)
  {
    ParseIntNeedsDigits(s);
  }

  // ---------------------------------------------------------------------
  // `update_obj_attributes`: one update per entry, in order, no rollback

  /** The state of a run of updates on one instance: its attributes, the
      number of saves so far and how the run ended. */
  datatype Batch = Batch(attrs: map<string, Value>, saves: nat, outcome: Outcome)

  /** One `update_obj_attribute` call on a found instance; `savable` tells
      whether `save()` succeeds (it raises while the registry holds a None). */
  function Step(b: Batch, entry: (string, Value), savable: bool): Batch
  {
    var (name, value) := entry;
    if name == "" || !Truthy(value) then b
    else
      match AttributeUpdate(b.attrs, name, value)
      case Fail(x) => Batch(b.attrs, b.saves, Raised(x))
      case c =>
        var a := Applied(b.attrs, name, c);
        if savable then Batch(a, b.saves + 1, Completed) else Batch(a, b.saves, Raised(AttributeError))
  }

  /** The entries applied in order; the first raise ends the run. */
  function Run(b: Batch, entries: seq<(string, Value)>, savable: bool): Batch
    decreases |entries|
  {
    if entries == [] then b
    else
      var p := Run(b, entries[..|entries| - 1], savable);
      if p.outcome.Raised? then p else Step(p, entries[|entries| - 1], savable)
  }

  lemma {:induction false} RunFromRaised(b: Batch, entries: seq<(string, Value)>, savable: bool)
    requires b.outcome.Raised?
    ensures Run(b, entries, savable) == b
    decreases |entries|
  {
    if entries != [] {
      RunFromRaised(b, entries[..|entries| - 1], savable);
    }
  }

  /** Running `p + q` is running `p`, then `q` from where `p` left off: what
      the first entries did stays done, whatever the later ones do. */
  lemma {:induction false} RunConcat(b: Batch, p: seq<(string, Value)>, q: seq<(string, Value)>, savable: bool)
    ensures Run(b, p + q, savable) == Run(Run(b, p, savable), q, savable)
    decreases |q|
  {
    if q == [] {
      assert p + q == p;
    } else {
      var pq := p + q;
      assert pq[..|pq| - 1] == p + q[..|q| - 1];
      assert pq[|pq| - 1] == q[|q| - 1];
      RunConcat(b, p, q[..|q| - 1], savable);
      var mid := Run(b, p, savable);
      if mid.outcome.Raised? {
        RunFromRaised(mid, q, savable);
        RunFromRaised(mid, q[..|q| - 1], savable);
      }
    }
  }

  lemma RunSnoc(b: Batch, p: seq<(string, Value)>, e: (string, Value), savable: bool)
    requires Run(b, p, savable).outcome == Completed
    ensures Run(b, p + [e], savable) == Step(Run(b, p, savable), e, savable)
  {
    assert (p + [e])[..|p|] == p;
  }

  /** One more entry of a run that has not raised yet. */
  lemma RunAdvance(b: Batch, entries: seq<(string, Value)>, i: nat, savable: bool, before: Batch, after: Batch)
    requires i < |entries| && Run(b, entries[..i], savable) == before && before.outcome == Completed
    requires Step(before, entries[i], savable) == after
    ensures Run(b, entries[..i + 1], savable) == after
    ensures after.outcome.Raised? ==> Run(b, entries, savable) == after
  {
    assert entries[..i + 1] == entries[..i] + [entries[i]];
    RunSnoc(b, entries[..i], entries[i], savable);
    if after.outcome.Raised? {
      assert entries == entries[..i + 1] + entries[i + 1..];
      RunConcat(b, entries[..i + 1], entries[i + 1..], savable);
      RunFromRaised(after, entries[i + 1..], savable);
    }
  }

  /** Entries that are all refused leave the instance and the saves alone. */
  lemma {:induction false} RunOfSkippedEntries(b: Batch, entries: seq<(string, Value)>, savable: bool)
    requires forall i :: 0 <= i < |entries| ==> entries[i].0 == "" || !Truthy(entries[i].1)
    ensures Run(b, entries, savable) == b
    decreases |entries|
  {
    if entries != [] {
      RunOfSkippedEntries(b, entries[..|entries| - 1], savable);
    }
  }

  // ---------------------------------------------------------------------
  // `reload`

  /** A member value of the JSON object in the file. */
  datatype Raw = Null | Record(fields: map<string, Value>) | NonRecord

  /** The file as `reload` finds it. */
  datatype StoreFile =
    | Missing                                  // FileNotFoundError
    | Malformed                                // json.JSONDecodeError
    | NonObject                                // valid JSON, but not an object
    | Document(members: seq<(string, Raw)>)   // an object's members, in file order

  /** The index of the first member named `k`; `|members|` when there is none. */
  function FirstPosition(members: seq<(string, Raw)>, k: string): (p: nat)
    ensures p <= |members|
    ensures p < |members| ==> members[p].0 == k
    ensures forall q :: 0 <= q < p ==> members[q].0 != k
    decreases |members|
  {
    if members == [] then 0
    else
      var p := FirstPosition(members[..|members| - 1], k);
      assert forall q :: 0 <= q < |members| - 1 ==> members[q] == members[..|members| - 1][q];
      if p < |members| - 1 || members[|members| - 1].0 == k then p else |members|
  }

  /** The dict `json.load` builds: a repeated key keeps its first position
      and takes its last value. */
  function Collect(members: seq<(string, Raw)>): (d: (seq<string>, map<string, Raw>))
    ensures Distinct(d.0) && (forall k :: k in d.0 <==> k in d.1)
    ensures forall i :: 0 <= i < |members| ==> members[i].0 in d.1
    ensures forall k :: k in d.1 ==> exists i :: 0 <= i < |members| && members[i].0 == k
    ensures members != [] ==> d.1[members[|members| - 1].0] == members[|members| - 1].1
    decreases |members|
  {
    if members == [] then ([], map[])
    else
      var (keys, vals) := Collect(members[..|members| - 1]);
      var (k, v) := members[|members| - 1];
      var keys' := if k in vals then keys else keys + [k];
      assert forall i :: 0 <= i < |members| - 1 ==> members[i] == members[..|members| - 1][i];
      (keys', vals[k := v])
  }

  /** A key `Collect` already holds for a prefix of the members first
      appears inside that prefix. */
  lemma FirstPositionInPrefix(members: seq<(string, Raw)>, key: string)
    requires members != [] && key in Collect(members[..|members| - 1]).1
    ensures FirstPosition(members, key) == FirstPosition(members[..|members| - 1], key) < |members| - 1
  {
  }

  /** The keys of `Collect` come in the order of their first appearance in
      the file (being distinct, in no other order). */
  lemma {:induction false} CollectKeepsFirstOrder(members: seq<(string, Raw)>)
    ensures var keys := Collect(members).0;
      forall i, j :: 0 <= i < j < |keys| ==> FirstPosition(members, keys[i]) < FirstPosition(members, keys[j])
    decreases |members|
  {
    if members != [] {
      var prefix := members[..|members| - 1];
      CollectKeepsFirstOrder(prefix);
      var (keys, vals) := Collect(prefix);
      var k := members[|members| - 1].0;
      var keys' := Collect(members).0;
      if k in vals {
        assert keys' == keys;
        forall i, j | 0 <= i < j < |keys'|
          ensures FirstPosition(members, keys'[i]) < FirstPosition(members, keys'[j])
        {
          FirstPositionInPrefix(members, keys[i]);
          FirstPositionInPrefix(members, keys[j]);
        }
      } else {
        assert keys' == keys + [k];
        assert FirstPosition(members, k) == |prefix|;
        forall i, j | 0 <= i < j < |keys'|
          ensures FirstPosition(members, keys'[i]) < FirstPosition(members, keys'[j])
        {
          assert keys'[i] == keys[i];
          FirstPositionInPrefix(members, keys[i]);
          if j < |keys| {
            assert keys'[j] == keys[j];
            FirstPositionInPrefix(members, keys[j]);
          } else {
            assert keys'[j] == k;
          }
        }
      }
    }
  }

  /** What `_deserialize` makes of one record. */
  datatype Decoded =
    | Absent                                               // None, silently
    | Unresolved                                           // None, after "** class doesn't exist **"
    | Rebuilt(kind: string, attrs: map<string, Value>)     // a new instance
    | Unreadable                                           // AttributeError: not a dict

  function Deserialize(raw: Raw): (d: Decoded)
    ensures d.Rebuilt? ==> raw.Record? && IsModelName(d.kind) && "__class__" in raw.fields && raw.fields["__class__"] == Str(d.kind)
    ensures d.Rebuilt? ==> raw.Record? && forall f :: f in raw.fields && f != "__class__" ==> f in d.attrs && d.attrs[f] == raw.fields[f]
    // only a value that is not a dict raises
    ensures d.Unreadable? <==> raw.NonRecord?
    // None and a record with a falsy (or no) `__class__` give None silently
    ensures d.Absent? <==>
      raw.Null? || (raw.Record? && ("__class__" !in raw.fields || !Truthy(raw.fields["__class__"])))
    // a registered class name always rebuilds that class
    ensures (raw.Record? && "__class__" in raw.fields && raw.fields["__class__"].Str? &&
             IsModelName(raw.fields["__class__"].s)) ==>
      d.Rebuilt? && d.kind == raw.fields["__class__"].s
    // a truthy `__class__` that names no registered class prints the diagnostic
    ensures d.Unresolved? <==>
      && raw.Record? && "__class__" in raw.fields && Truthy(raw.fields["__class__"])
      && !(raw.fields["__class__"].Str? && IsModelName(raw.fields["__class__"].s))
  {
    match raw
    case Null => Absent
    case NonRecord => Unreadable
    case Record(f) =>
      if "__class__" !in f || !Truthy(f["__class__"]) then Absent
      else if f["__class__"].Str? && IsModelName(f["__class__"].s) then
        Rebuilt(f["__class__"].s, InheritedAttrs + (f - {"__class__"}))
      else Unresolved
  }

  /** A rebuilt instance has exactly the inherited attributes and the
      record's fields but `__class__`, a field overriding an inherited one. */
  lemma RebuiltAttributes(raw: Raw)
    requires Deserialize(raw).Rebuilt?
    ensures var a := Deserialize(raw).attrs;
      forall f :: f in a <==> f in InheritedAttrs || (f in raw.fields && f != "__class__")
    ensures var a := Deserialize(raw).attrs;
      forall f :: f in a ==> a[f] == if f in raw.fields && f != "__class__" then raw.fields[f] else InheritedAttrs[f]
  {
  }

  /** The position of the first record `_deserialize` cannot read, or `|keys|`. */
  function FirstUnreadable(keys: seq<string>, raws: map<string, Raw>): (j: nat)
    requires forall k :: k in keys ==> k in raws
    ensures j <= |keys|
    ensures forall i :: 0 <= i < j ==> !Deserialize(raws[keys[i]]).Unreadable?
    ensures j < |keys| ==> Deserialize(raws[keys[j]]).Unreadable?
  {
    if keys == [] then 0
    else if Deserialize(raws[keys[0]]).Unreadable? then 0
    else 1 + FirstUnreadable(keys[1..], raws)
  }

  /** The diagnostics deserializing `keys` prints, in order. */
  function Warnings(keys: seq<string>, raws: map<string, Raw>): seq<string>
    requires forall k :: k in keys ==> k in raws
  {
    if keys == [] then []
    else
      Warnings(keys[..|keys| - 1], raws) +
      (if Deserialize(raws[keys[|keys| - 1]]).Unresolved? then [ClassDoesNotExist] else [])
  }

  /** The elements of a sequence, as a set. */
  function Elems<T>(s: seq<T>): set<T>
  {
    if s == [] then {} else Elems(s[..|s| - 1]) + {s[|s| - 1]}
  }

  lemma {:induction false} ElemsMembers<T>(s: seq<T>)
    ensures forall x :: x in Elems(s) <==> x in s
  {
    if s != [] {
      ElemsMembers(s[..|s| - 1]);
      assert s == s[..|s| - 1] + [s[|s| - 1]];
    }
  }

  /** One more record: where `reload` stops, and what it prints. */
  lemma WarningsAdvance(keys: seq<string>, raws: map<string, Raw>, i: nat)
    requires forall k :: k in keys ==> k in raws
    requires i < |keys| && i <= FirstUnreadable(keys, raws)
    ensures var d := Deserialize(raws[keys[i]]);
      && (d.Unreadable? ==> FirstUnreadable(keys, raws) == i)
      && (!d.Unreadable? ==> i + 1 <= FirstUnreadable(keys, raws))
      && keys[..i + 1] == keys[..i] + [keys[i]]
      && Warnings(keys[..i + 1], raws) ==
           Warnings(keys[..i], raws) + (if d.Unresolved? then [ClassDoesNotExist] else [])
  {
    assert keys[..i + 1][..i] == keys[..i];
  }

  // ---------------------------------------------------------------------
  // `save` followed by `reload`

  /** The names of a document's members, in file order. */
  function MemberNames(members: seq<(string, Raw)>): (r: seq<string>)
    ensures |r| == |members| && forall i :: 0 <= i < |members| ==> r[i] == members[i].0
  {
    seq(|members|, i requires 0 <= i < |members| => members[i].0)
  }

  lemma MemberNamesSnoc(members: seq<(string, Raw)>)
    requires members != []
    ensures MemberNames(members) == MemberNames(members[..|members| - 1]) + [members[|members| - 1].0]
  {
    var prefix := members[..|members| - 1];
    assert forall i :: 0 <= i < |prefix| ==> prefix[i] == members[i];
  }

  /** A member whose name is new is appended to the keys. */
  lemma CollectStep(members: seq<(string, Raw)>)
    requires members != [] && members[|members| - 1].0 !in Collect(members[..|members| - 1]).1
    ensures var prior := Collect(members[..|members| - 1]);
      var (k, v) := members[|members| - 1];
      Collect(members) == (prior.0 + [k], prior.1[k := v])
  {
  }

  /** No two members of a document share a name. */
  predicate DistinctNames(members: seq<(string, Raw)>)
  {
    forall i, j :: 0 <= i < j < |members| ==> members[i].0 != members[j].0
  }

  /** The last member's name, when no earlier member has it, is not among
      the keys of the members before it. */
  lemma LastNameIsNew(members: seq<(string, Raw)>)
    requires members != []
    requires forall i :: 0 <= i < |members| - 1 ==> members[i].0 != members[|members| - 1].0
    ensures members[|members| - 1].0 !in Collect(members[..|members| - 1]).1
  {
    var prefix := members[..|members| - 1];
    forall i | 0 <= i < |prefix|
      ensures prefix[i].0 != members[|members| - 1].0
    {
      assert prefix[i] == members[i];
    }
  }

  /** A document whose names are all different loads as exactly its
      members, in file order. */
  lemma {:induction false} CollectOfDistinct(members: seq<(string, Raw)>)
    requires DistinctNames(members)
    ensures Collect(members).0 == MemberNames(members)
    ensures forall i :: 0 <= i < |members| ==> Collect(members).1[members[i].0] == members[i].1
    decreases |members|
  {
    if members != [] {
      var n := |members|;
      var prefix := members[..n - 1];
      assert DistinctNames(prefix) by {
        forall i, j | 0 <= i < j < |prefix|
          ensures prefix[i].0 != prefix[j].0
        {
          assert prefix[i] == members[i] && prefix[j] == members[j];
        }
      }
      CollectOfDistinct(prefix);
      LastNameIsNew(members);
      CollectStep(members);
      MemberNamesSnoc(members);
      var prior := Collect(prefix);
      forall i | 0 <= i < n - 1
        ensures Collect(members).1[members[i].0] == members[i].1
      {
        assert prefix[i] == members[i];
        assert prior.1[members[i].0] == members[i].1;
      }
    }
  }

  /** The record `save()` writes for one instance: its attributes, with
      `__class__` set to its class name. */
  function EncodeView(view: View): Raw
  {
    Record(view.attrs["__class__" := Str(view.kind)])
  }

  /** `_deserialize` rebuilds a saved record as an instance of the same
      class, with every attribute but `__class__` as it was saved. */
  lemma SavedRecordRebuilds(view: View)
    requires IsModelName(view.kind)
    ensures var d := Deserialize(EncodeView(view));
      && d.Rebuilt? && d.kind == view.kind
      && forall f :: f in view.attrs && f != "__class__" ==> f in d.attrs && d.attrs[f] == view.attrs[f]
  {
  }

  /** The document `save()` writes for the keys in `order`. */
  function Encoded(order: seq<string>, views: map<string, View>): (doc: seq<(string, Raw)>)
    requires forall k :: k in order ==> k in views
    ensures |doc| == |order| && forall i :: 0 <= i < |order| ==> doc[i] == (order[i], EncodeView(views[order[i]]))
  {
    seq(|order|, i requires 0 <= i < |order| => (order[i], EncodeView(views[order[i]])))
  }

  /** Reloading what `save()` wrote gives back every saved key, in the same
      order, each with the record saved for it; nothing raises and no
      diagnostic is printed. */
  lemma SavedDocumentReloads(order: seq<string>, views: map<string, View>)
    requires Distinct(order)
    requires forall k :: k in order ==> k in views && IsModelName(views[k].kind)
    ensures var (keys, raws) := Collect(Encoded(order, views));
      && keys == order
      && (forall k :: k in order ==> k in raws && raws[k] == EncodeView(views[k]))
      && FirstUnreadable(keys, raws) == |keys|
      && Warnings(keys, raws) == []
  {
    var doc := Encoded(order, views);
    assert MemberNames(doc) == order;
    assert DistinctNames(doc);
    CollectOfDistinct(doc);
    var (keys, raws) := Collect(doc);
    forall k | k in order
      ensures k in raws && raws[k] == EncodeView(views[k])
    {
      var i :| 0 <= i < |order| && order[i] == k;
      assert doc[i] == (k, EncodeView(views[k]));
      assert raws[doc[i].0] == doc[i].1;
    }
    AllRecordsReadable(keys, raws);
    NoWarnings(keys, raws);
  }

  /** When every member is a record, the comprehension of `reload` runs to
      the end. */
  lemma AllRecordsReadable(keys: seq<string>, raws: map<string, Raw>)
    requires forall k :: k in keys ==> k in raws && raws[k].Record?
    ensures FirstUnreadable(keys, raws) == |keys|
  {
  }

  /** Records that all name registered classes print no diagnostic. */
  lemma {:induction false} NoWarnings(keys: seq<string>, raws: map<string, Raw>)
    requires forall k :: k in keys ==> k in raws && !Deserialize(raws[k]).Unresolved?
    ensures Warnings(keys, raws) == []
    decreases |keys|
  {
    if keys != [] {
      NoWarnings(keys[..|keys| - 1], raws);
    }
  }

  /** The registry value stored for a decoded record. */
  ghost predicate Holds(o: Option<Entity>, d: Decoded)
    reads if o.Some? then {o.value} else {}
  {
    match d
    case Rebuilt(k, a) => o.Some? && o.value.kind == k && o.value.attrs == a
    case _ => o.None?
  }

  /** Every key of `m` holds what `_deserialize` makes of its record. */
  ghost predicate Decodes(m: map<string, Option<Entity>>, raws: map<string, Raw>)
    reads set k | k in m && m[k].Some? :: m[k].value
  {
    forall k :: k in m ==> k in raws && Holds(m[k], Deserialize(raws[k]))
  }

  /** Adding a key whose value matches its record keeps `Decodes`. */
  lemma DecodesExtend(m: map<string, Option<Entity>>, raws: map<string, Raw>, key: string, o: Option<Entity>)
    requires Decodes(m, raws) && key in raws && Holds(o, Deserialize(raws[key]))
    ensures Decodes(m[key := o], raws)
  {
  }

  /** Adding an instance held by no other key keeps the instances apart. */
  lemma DistinctExtend(m: map<string, Option<Entity>>, key: string, o: Option<Entity>)
    requires forall k1, k2 :: k1 in m && k2 in m && k1 != k2 && m[k1].Some? ==> m[k1] != m[k2]
    requires o.Some? ==> forall k :: k in m ==> m[k] != o
    ensures var n := m[key := o];
      forall k1, k2 :: k1 in n && k2 in n && k1 != k2 && n[k1].Some? ==> n[k1] != n[k2]
  {
  }

  // ---------------------------------------------------------------------
  // Listing and counting

  function ValuesOf(keys: seq<string>, m: map<string, Option<Entity>>): (r: seq<Option<Entity>>)
    requires forall k :: k in keys ==> k in m
    ensures |r| == |keys|
    ensures forall i :: 0 <= i < |keys| ==> r[i] == m[keys[i]]
  {
    if keys == [] then [] else [m[keys[0]]] + ValuesOf(keys[1..], m)
  }

  /** The values under `keys` whose class name is `name`, in key order. */
  function OfKind(keys: seq<string>, m: map<string, Option<Entity>>, name: string): (r: seq<Option<Entity>>)
    requires forall k :: k in keys ==> k in m
    ensures forall x :: x in r ==> x.Some? && x.value.kind == name
    ensures forall i :: 0 <= i < |keys| && m[keys[i]].Some? && m[keys[i]].value.kind == name ==> m[keys[i]] in r
    ensures forall x :: x in r ==> exists i :: 0 <= i < |keys| && m[keys[i]] == x
  {
    if keys == [] then []
    else
      var rest := OfKind(keys[1..], m, name);
      var v := m[keys[0]];
      if v.Some? && v.value.kind == name then [v] + rest else rest
  }

  /** The entries of `values` that hold an instance of class `name`, in
      their order. */
  function KindFilter(values: seq<Option<Entity>>, name: string): (r: seq<Option<Entity>>)
    ensures |r| <= |values|
  {
    if values == [] then []
    else
      (if values[0].Some? && values[0].value.kind == name then [values[0]] else []) +
      KindFilter(values[1..], name)
  }

  /** Taking the instances of a class key by key is filtering the values
      listed in key order. */
  lemma {:induction false} OfKindIsFilter(keys: seq<string>, m: map<string, Option<Entity>>, name: string)
    requires forall k :: k in keys ==> k in m
    ensures OfKind(keys, m, name) == KindFilter(ValuesOf(keys, m), name)
  {
    if keys != [] {
      OfKindIsFilter(keys[1..], m, name);
      var values := ValuesOf(keys, m);
      assert values[0] == m[keys[0]];
      assert values[1..] == ValuesOf(keys[1..], m);
    }
  }

  /** `sum(1 for key in keys if key.startswith(prefix))` */
  function CountPrefixed(keys: seq<string>, prefix: string): (n: nat)
    ensures n <= |keys|
  {
    if keys == [] then 0
    else (if prefix <= keys[0] then 1 else 0) + CountPrefixed(keys[1..], prefix)
  }

  lemma {:induction false} CountPrefixedIsCard(keys: seq<string>, prefix: string)
    requires Distinct(keys)
    ensures CountPrefixed(keys, prefix) == |set k | k in keys && prefix <= k|
  {
    if keys != [] {
      var rest := keys[1..];
      assert Distinct(rest);
      CountPrefixedIsCard(rest, prefix);
      var all := set k | k in keys && prefix <= k;
      var tail := set k | k in rest && prefix <= k;
      assert keys[0] !in rest;
      if prefix <= keys[0] {
        assert all == {keys[0]} + tail;
      } else {
        assert all == tail;
      }
    }
  }

  lemma {:induction false} CountPrefixedOfKind(keys: seq<string>, m: map<string, Option<Entity>>, name: string)
    requires forall k :: k in keys ==>
      k in m && m[k].Some? && IsModelName(m[k].value.kind) && m[k].value.kind + "." <= k
    requires IsModelName(name)
    ensures CountPrefixed(keys, name) == |OfKind(keys, m, name)|
  {
    if keys != [] {
      var k := keys[0];
      var kind := m[k].value.kind;
      assert k == kind + "." + k[|kind| + 1..];
      PrefixOfModelKey(name, kind, k[|kind| + 1..]);
      CountPrefixedOfKind(keys[1..], m, name);
    }
  }

  /** `msg` printed once per entry. */
  function Repeat(msg: seq<string>, n: nat): seq<string>
  {
    if n == 0 then [] else Repeat(msg, n - 1) + msg
  }

  // ---------------------------------------------------------------------
  // Queries over the registry's dictionary

  /** `__objects`: key to instance, or to None for a record `reload` could
      not rebuild. */
  type Objects = map<string, Option<Entity>>

  /** `order` lists every key of `objects` once, in insertion order. */
  ghost predicate Registry(order: seq<string>, objects: Objects)
  {
    Distinct(order) && (forall k :: k in order <==> k in objects)
  }

  /** Every key holds an instance and starts with its class name and a dot,
      as `new` makes them; a reloaded file can break this. */
  predicate WellKeyed(objects: Objects)
  {
    forall k :: k in objects ==>
      objects[k].Some? && IsModelName(objects[k].value.kind) && objects[k].value.kind + "." <= k
  }

  /** `save()` can serialize every value: there is no None among them. */
  predicate AllPresent(objects: Objects)
  {
    forall k :: k in objects ==> objects[k].Some?
  }

  /** `find_obj`: the value under "<model_name>.<id>"; silent on an unknown
      class name or a falsy id, "** no instance found **" on a missing key. */
  function FindObj(objects: Objects, modelName: string, id: Value): (r: Reply<Entity>)
    ensures r.value.Some? ==>
      && r.printed == [] && ObjKey(modelName, id).Some?
      && ObjKey(modelName, id).value in objects && objects[ObjKey(modelName, id).value] == r.value
    ensures !IsModelName(modelName) || !Truthy(id) ==> r == Reply(None, [])
    ensures r.printed == [NoInstanceFound] || r.printed == []
    ensures r.printed == [NoInstanceFound] <==>
      IsModelName(modelName) && Truthy(id) && ObjKey(modelName, id).value !in objects
    ensures IsModelName(modelName) && Truthy(id) && ObjKey(modelName, id).value in objects ==>
      r == Reply(objects[ObjKey(modelName, id).value], [])
  {
    if !IsModelName(modelName) || !Truthy(id) then Reply(None, [])
    else
      var key := ObjKey(modelName, id).value;
      if key !in objects then Reply(None, [NoInstanceFound]) else Reply(objects[key], [])
  }

  /** The instance `find_obj` finds, as a frame. */
  function Target(objects: Objects, modelName: string, id: Value): set<Entity>
  {
    var t := FindObj(objects, modelName, id).value;
    if t.Some? then {t.value} else {}
  }

  /** `find_all`: every value (as `str` shows it) for an empty name, nothing
      for an unknown name, the instances of the named class otherwise. */
  function FindAll(order: seq<string>, objects: Objects, modelName: string): (r: seq<Option<Entity>>)
    requires Registry(order, objects)
    ensures modelName == "" ==> |r| == |order| && forall i :: 0 <= i < |order| ==> r[i] == objects[order[i]]
    ensures modelName != "" && !IsModelName(modelName) ==> r == []
    ensures modelName != "" ==> forall x :: x in r ==> x.Some? && x.value.kind == modelName && x in objects.Values
    ensures IsModelName(modelName) ==>
      forall k :: k in objects && objects[k].Some? && objects[k].value.kind == modelName ==> objects[k] in r
  {
    if modelName == "" then ValuesOf(order, objects)
    else if !IsModelName(modelName) then []
    else
      var r := OfKind(order, objects, modelName);
      assert forall x :: x in r ==> x in objects.Values by {
        forall x | x in r ensures x in objects.Values {
          var i :| 0 <= i < |order| && objects[order[i]] == x;
        }
      }
      r
  }

  /** `find_all(name)` lists the instances of that class in the order
      `find_all()` lists every value: the order in which their keys were
      inserted. */
  lemma FindAllInInsertionOrder(order: seq<string>, objects: Objects, modelName: string)
    requires Registry(order, objects) && IsModelName(modelName)
    ensures FindAll(order, objects, modelName) == KindFilter(FindAll(order, objects, ""), modelName)
  {
    OfKindIsFilter(order, objects, modelName);
  }

  /** `count`: None for an empty or unknown name, else the number of keys
      that start with the name (without the dot: see README). */
  function Count(order: seq<string>, objects: Objects, modelName: string): (r: Option<nat>)
    requires Registry(order, objects)
    ensures r.None? <==> !IsModelName(modelName)
    ensures r.Some? ==> r.value <= |objects|
  {
    if modelName == "" || !IsModelName(modelName) then None
    else
      DistinctCard(order);
      assert (set k | k in order) == objects.Keys;
      Some(CountPrefixed(order, modelName))
  }

  /** `count` is the number of keys that start with the class name. */
  lemma CountIsCardinality(order: seq<string>, objects: Objects, name: string)
    requires Registry(order, objects) && IsModelName(name)
    ensures Count(order, objects, name) == Some(|set k | k in objects && name <= k|)
  {
    CountPrefixedIsCard(order, name);
    assert (set k | k in order && name <= k) == (set k | k in objects && name <= k);
  }

  /** In a registry whose keys are all "<kind>.<id>", `count` and `all` agree. */
  lemma CountMatchesFindAll(order: seq<string>, objects: Objects, name: string)
    requires Registry(order, objects) && WellKeyed(objects) && IsModelName(name)
    ensures Count(order, objects, name) == Some(|FindAll(order, objects, name)|)
  {
    CountPrefixedOfKind(order, objects, name);
  }

  /** The prefix test without the dot also counts a key of another class
      whose name extends the model name, which a reloaded file can hold. */
  lemma CountWithForeignKey(e: Entity)
    requires e.kind == "BaseModel"
    ensures var objects := map["UserProfile.1" := Some(e)];
      && Registry(["UserProfile.1"], objects)
      && Count(["UserProfile.1"], objects, "User") == Some(1)
      && FindAll(["UserProfile.1"], objects, "User") == []
  {
    var order := ["UserProfile.1"];
    var objects := map["UserProfile.1" := Some(e)];
    assert IsModelName("User");
    assert "User" <= "UserProfile.1";
    assert CountPrefixed(order[1..], "User") == 0 by { assert order[1..] == []; }
    assert e.kind != "User";
    assert OfKind(order, objects, "User") == OfKind(order[1..], objects, "User") == [] by {
      assert order[1..] == [];
    }
  }

  /** `all` with no class name shows every stored value exactly once. */
  lemma FindAllEverything(order: seq<string>, objects: Objects)
    requires Registry(order, objects)
    ensures |FindAll(order, objects, "")| == |objects|
    ensures forall k :: k in objects ==> objects[k] in FindAll(order, objects, "")
  {
    DistinctCard(order);
    assert (set k | k in order) == objects.Keys;
    forall k | k in objects ensures objects[k] in FindAll(order, objects, "") {
      var i :| 0 <= i < |order| && order[i] == k;
      assert FindAll(order, objects, "")[i] == objects[k];
    }
  }

  // ---------------------------------------------------------------------
  // The registry

  class FileStorage {
    /** The keys of `__objects` in insertion order. */
    var order: seq<string>
    /** `__objects` */
    var objects: Objects
    /** How many times `save()` has written the file. */
    var saves: nat
    /** What the last successful `save()` wrote. */
    var persisted: map<string, View>

    ghost predicate Valid()
      reads this`order, this`objects
    {
      Registry(order, objects)
    }

    constructor ()
      ensures Valid() && order == [] && objects == map[] && saves == 0 && persisted == map[]
    {
      order, objects, saves, persisted := [], map[], 0, map[];
    }

    /** The instances the registry holds. */
    function Entities(): set<Entity>
      reads this`objects
    {
      set k | k in objects && objects[k].Some? :: objects[k].value
    }

    /** What `save()` writes: every instance's class and attributes. */
    function Snapshot(): (r: map<string, View>)
      reads this`objects, Entities()
      requires AllPresent(objects)
      ensures r.Keys == objects.Keys
    {
      map k | k in objects :: var e := objects[k].value; assert e in Entities(); View(e.kind, e.attrs)
    }

    /** The effect of one `save()` that ended with `r`. */
    ghost predicate SaveEffect(oldSaves: nat, oldPersisted: map<string, View>, r: Outcome)
      reads this, Entities()
    {
      if AllPresent(objects) then r == Completed && saves == oldSaves + 1 && persisted == Snapshot()
      else r == Raised(AttributeError) && saves == oldSaves && persisted == oldPersisted
    }

    /** `persisted` is what the last successful save wrote: unchanged while
        there was none, the current registry after one. */
    ghost predicate SnapshotFollows(oldSaves: nat, oldPersisted: map<string, View>)
      reads this, Entities()
    {
      && saves >= oldSaves
      && (saves == oldSaves ==> persisted == oldPersisted)
      && (saves != oldSaves ==> AllPresent(objects) && persisted == Snapshot())
    }

    /** `save()`: serializes every value (None has no `to_dict`) and writes. */
    method Save() returns (r: Outcome)
      modifies this`saves, this`persisted
      ensures SaveEffect(old(saves), old(persisted), r)
    {
      if AllPresent(objects) {
        persisted := Snapshot();
        saves := saves + 1;
        r := Completed;
      } else {
        r := Raised(AttributeError);
      }
    }

    /** The key `new` stores `obj` under, if it stores it. */
    static function NewKey(obj: Entity?): Option<string>
      reads obj
    {
      if obj == null || !IsModelName(obj.kind) || "id" !in obj.attrs then None
      else ObjKey(obj.kind, obj.attrs["id"])
    }

    /** `new(obj)`: registers an instance of a registered model under
        "<ClassName>.<id>"; anything else leaves the registry as it was. */
    method New(obj: Entity?)
      requires Valid()
      modifies this`order, this`objects
      ensures Valid() && (old(WellKeyed(objects)) ==> WellKeyed(objects))
      ensures NewKey(obj).None? ==> objects == old(objects) && order == old(order)
      ensures NewKey(obj).Some? ==>
        var key := NewKey(obj).value;
        && objects == old(objects)[key := Some(obj)]
        && order == (if key in old(objects) then old(order) else old(order) + [key])
        && FindObj(objects, obj.kind, obj.attrs["id"]) == Reply(Some(obj as Entity), [])
    {
      var key := NewKey(obj);
      if key.Some? {
        if key.value !in objects {
          order := order + [key.value];
        }
        objects := objects[key.value := Some(obj)];
      }
    }

    /** `remove_obj`: deletes the found key and saves; does nothing when the
        lookup finds nothing (or finds None). */
    method RemoveObj(modelName: string, id: Value) returns (r: Outcome, out: seq<string>)
      requires Valid()
      modifies this`order, this`objects, this`saves, this`persisted
      ensures Valid() && (old(WellKeyed(objects)) ==> WellKeyed(objects))
      ensures out == FindObj(old(objects), modelName, id).printed
      ensures FindObj(old(objects), modelName, id).value.None? ==>
        r == Completed && objects == old(objects) && order == old(order) &&
        saves == old(saves) && persisted == old(persisted)
      ensures FindObj(old(objects), modelName, id).value.Some? ==>
        var key := ObjKey(modelName, id).value;
        && key in old(objects)
        && objects == old(objects) - {key}
        && order == Without(old(order), key)
        && FindObj(objects, modelName, id) == Reply(None, [NoInstanceFound])
        && SaveEffect(old(saves), old(persisted), r)
    {
      var found := FindObj(objects, modelName, id);
      out := found.printed;
      if found.value.None? {
        r := Completed;
        return;
      }
      var key := ObjKey(modelName, id).value;
      WithoutKeepsOthers(order, key);
      objects := objects - {key};
      order := Without(order, key);
      r := Save();
    }

    /** `update_obj_attribute`: one attribute update on the found instance,
        then a save; nothing when the lookup fails or the name or value is
        falsy. */
    method UpdateObjAttribute(modelName: string, id: Value, name: string, value: Value)
      returns (r: Outcome, out: seq<string>)
      modifies this`saves, this`persisted, Target(objects, modelName, id)
      ensures objects == old(objects) && order == old(order)
      ensures out == FindObj(objects, modelName, id).printed
      ensures SnapshotFollows(old(saves), old(persisted))
      ensures FindObj(objects, modelName, id).value.None? ==> r == Completed && saves == old(saves)
      // the found instance, the number of saves and the outcome change as one `Step`
      ensures var t := FindObj(objects, modelName, id).value;
        t.Some? ==>
          Step(Batch(old(t.value.attrs), old(saves), Completed), (name, value), AllPresent(objects))
            == Batch(t.value.attrs, saves, r)
    {
      var found := FindObj(objects, modelName, id);
      out := found.printed;
      if found.value.None? || name == "" || !Truthy(value) {
        r := Completed;
        return;
      }
      var obj := found.value.value;
      r := AssignAttribute(obj, name, value);
      if r.Raised? {
        return;
      }
      r := Save();
    }

    /** `update_obj_attributes`: one `update_obj_attribute` per entry, in
        order; the first exception ends the loop and the earlier updates and
        saves stay done. */
    method UpdateObjAttributes(modelName: string, id: Value, entries: seq<(string, Value)>)
      returns (r: Outcome, out: seq<string>)
      modifies this`saves, this`persisted, Target(objects, modelName, id)
      ensures objects == old(objects) && order == old(order)
      ensures saves >= old(saves) && (saves == old(saves) ==> persisted == old(persisted))
      ensures var f := FindObj(objects, modelName, id);
        f.value.None? ==> r == Completed && out == Repeat(f.printed, |entries|) && saves == old(saves)
      ensures var t := FindObj(objects, modelName, id).value;
        t.Some? ==>
          && out == []
          && Run(Batch(old(t.value.attrs), old(saves), Completed), entries, AllPresent(objects))
               == Batch(t.value.attrs, saves, r)
    {
      var found := FindObj(objects, modelName, id);
      ghost var savable := AllPresent(objects);
      ghost var b0 := Batch(if found.value.Some? then found.value.value.attrs else map[], saves, Completed);
      r, out := Completed, [];
      var i := 0;
      while i < |entries|
        invariant 0 <= i <= |entries|
        invariant objects == old(objects) && order == old(order)
        invariant saves >= old(saves) && (saves == old(saves) ==> persisted == old(persisted))
        invariant out == (if found.value.None? then Repeat(found.printed, i) else [])
        invariant found.value.None? ==> saves == old(saves)
        invariant found.value.Some? ==>
          Run(b0, entries[..i], savable) == Batch(found.value.value.attrs, saves, Completed)
      {
        label before:
        var r1, o1 := UpdateObjAttribute(modelName, id, entries[i].0, entries[i].1);
        out := out + o1;
        if found.value.Some? {
          RunAdvance(b0, entries, i, savable,
            Batch(old@before(found.value.value.attrs), old@before(saves), Completed),
            Batch(found.value.value.attrs, saves, r1));
        }
        if r1.Raised? {
          r := r1;
          return;
        }
        i := i + 1;
      }
      assert entries[..i] == entries;
    }

    /** `reload`: rebuilds the registry from the file.  A missing or
        malformed file leaves it as it was; a document replaces it, keys in
        file order, with None for each record that names no registered class;
        a member that is not a record raises before anything is replaced. */
    method Reload(file: StoreFile) returns (r: Outcome, out: seq<string>)
      requires Valid()
      modifies this`order, this`objects
      ensures Valid()
      ensures !file.Document? ==>
        && objects == old(objects) && order == old(order) && out == []
        && r == (if file.NonObject? then Raised(AttributeError) else Completed)
      ensures file.Document? ==>
        var (keys, raws) := Collect(file.members);
        var j := FirstUnreadable(keys, raws);
        && out == Warnings(keys[..j], raws)
        && (j < |keys| ==> r == Raised(AttributeError) && objects == old(objects) && order == old(order))
        && (j == |keys| ==>
              && r == Completed && order == keys && objects.Keys == raws.Keys
              && Decodes(objects, raws)
              && (forall k :: k in objects && objects[k].Some? ==> fresh(objects[k].value))
              && (forall k1, k2 :: k1 in objects && k2 in objects && k1 != k2 && objects[k1].Some? ==>
                    objects[k1] != objects[k2]))
    {
      out := [];
      if !file.Document? {
        r := if file.NonObject? then Raised(AttributeError) else Completed;
        return;
      }
      var (keys, raws) := Collect(file.members);
      var built;
      built, out := Rebuild(keys, raws);
      if built.None? {
        r := Raised(AttributeError);
      } else {
        order, objects := keys, built.value;
        r := Completed;
      }
    }

    /** The loop of `reload` over the document's keys: one `_deserialize`
        per record, stopping at the first it cannot read. */
    static method Rebuild(keys: seq<string>, raws: map<string, Raw>)
      returns (built: Option<map<string, Option<Entity>>>, out: seq<string>)
      requires forall k :: k in keys ==> k in raws
      ensures var j := FirstUnreadable(keys, raws);
        && out == Warnings(keys[..j], raws)
        && (built.None? <==> j < |keys|)
      ensures built.Some? ==>
        var m := built.value;
        && (forall k :: k in m <==> k in keys)
        && Decodes(m, raws)
        && (forall k :: k in m && m[k].Some? ==> fresh(m[k].value))
        && (forall k1, k2 :: k1 in m && k2 in m && k1 != k2 && m[k1].Some? ==> m[k1] != m[k2])
    {
      var m: map<string, Option<Entity>> := map[];
      out := [];
      var i := 0;
      while i < |keys|
        invariant 0 <= i <= |keys| && i <= FirstUnreadable(keys, raws)
        invariant m.Keys == Elems(keys[..i])
        invariant Decodes(m, raws)
        invariant forall k :: k in m && m[k].Some? ==> fresh(m[k].value)
        invariant forall k1, k2 :: k1 in m && k2 in m && k1 != k2 && m[k1].Some? ==> m[k1] != m[k2]
        invariant out == Warnings(keys[..i], raws)
      {
        var key := keys[i];
        var d := Deserialize(raws[key]);
        WarningsAdvance(keys, raws, i);
        if d.Unreadable? {
          assert FirstUnreadable(keys, raws) == i;
          return None, out;
        }
        m := Insert(m, raws, key);
        out := out + (if d.Unresolved? then [ClassDoesNotExist] else []);
        i := i + 1;
      }
      assert keys[..i] == keys;
      assert FirstUnreadable(keys, raws) == i;
      ElemsMembers(keys);
      built := Some(m);
    }

    /** One turn of `reload`'s loop for a readable record: the registry
        entry for `key` becomes a new instance (or None) built from its
        record. */
    static method Insert(m: map<string, Option<Entity>>, raws: map<string, Raw>, key: string)
      returns (n: map<string, Option<Entity>>)
      requires key in raws && Decodes(m, raws)
      requires forall k1, k2 :: k1 in m && k2 in m && k1 != k2 && m[k1].Some? ==> m[k1] != m[k2]
      ensures key in n && n == m[key := n[key]]
      ensures n[key].Some? ==> fresh(n[key].value)
      ensures Decodes(n, raws)
      ensures forall k1, k2 :: k1 in n && k2 in n && k1 != k2 && n[k1].Some? ==> n[k1] != n[k2]
    {
      var o := Instantiate(Deserialize(raws[key]));
      DecodesExtend(m, raws, key, o);
      DistinctExtend(m, key, o);
      n := m[key := o];
    }

    /** The value `_deserialize` returns for a readable record. */
    static method Instantiate(d: Decoded) returns (o: Option<Entity>)
      ensures Holds(o, d) && (o.Some? ==> fresh(o.value))
    {
      if d.Rebuilt? {
        var e := new Entity(d.kind, d.attrs);
        o := Some(e);
      } else {
        o := None;
      }
    }

    /** `_update_obj_attribute(obj, name, value)`. */
    static method AssignAttribute(obj: Entity?, name: string, value: Value) returns (r: Outcome)
      modifies obj
      ensures obj == null ==> r == Completed
      ensures obj != null ==>
        var c := AttributeUpdate(old(obj.attrs), name, value);
        && obj.attrs == Applied(old(obj.attrs), name, c)
        && r == (if c.Fail? then Raised(c.exc) else Completed)
    {
      if obj == null {
        return Completed;
      }
      var c := AttributeUpdate(obj.attrs, name, value);
      match c {
        case Keep => r := Completed;
        case Assign(v) => obj.attrs := obj.attrs[name := v]; r := Completed;
        case Fail(x) => r := Raised(x);
      }
    }
  }
}
