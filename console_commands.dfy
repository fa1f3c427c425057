/**
 * The command layer of console_commands.py: the token table that every
 * command shares, the chain of validation getters, each of which prints one
 * diagnostic when it fails, and the `execute` of the five commands.  What a
 * command prints is returned as a sequence of `Printed` lines.
 */
module Commands {
  import opened PyValues
  import opened Storage

  // ---------------------------------------------------------------------
  // The token table

  /** The four positional slots of `__tokens`: model_name, instance_id,
      attribute_name, attribute_value. */
  const SlotCount: nat := 4
  const ModelNameSlot: nat := 0
  const InstanceIdSlot: nat := 1
  const AttributeNameSlot: nat := 2
  const AttributeValueSlot: nat := 3

  /** The table as `reset_tokens` leaves it. */
  const ClearedSlots: seq<Option<string>> := [None, None, None, None]

  /** Each token as a filled slot. */
  function Wrapped(tokens: seq<string>): (r: seq<Option<string>>)
    ensures |r| == |tokens|
    ensures forall i :: 0 <= i < |tokens| ==> r[i] == Some(tokens[i])
  {
    if tokens == [] then [] else Wrapped(tokens[..|tokens| - 1]) + [Some(tokens[|tokens| - 1])]
  }

  /** The slots after `set_tokens(tokens)`: `zip` pairs the slots with the
      tokens in order, so extra tokens are dropped and the slots past the
      last token keep what they held. */
  function Bound(slots: seq<Option<string>>, tokens: seq<string>): (r: seq<Option<string>>)
    requires |slots| == SlotCount
    ensures |r| == SlotCount
    ensures forall i :: 0 <= i < SlotCount ==> r[i] == (if i < |tokens| then Some(tokens[i]) else slots[i])
  {
    var n := if |tokens| < SlotCount then |tokens| else SlotCount;
    Wrapped(tokens[..n]) + slots[n..]
  }

  /** A later binding with at least as many tokens hides an earlier one. */
  lemma RebindingOverrides(slots: seq<Option<string>>, first: seq<string>, second: seq<string>)
    requires |slots| == SlotCount && |first| <= |second|
    ensures Bound(Bound(slots, first), second) == Bound(slots, second)
  {
    var a := Bound(Bound(slots, first), second);
    var b := Bound(slots, second);
    assert forall i :: 0 <= i < SlotCount ==> a[i] == b[i];
  }

  /** After a reset, binding the tokens of one command line leaves exactly
      those tokens (at most four) in the table. */
  lemma BindingAfterReset(tokens: seq<string>)
    ensures forall i :: 0 <= i < SlotCount ==>
      Bound(ClearedSlots, tokens)[i] == (if i < |tokens| then Some(tokens[i]) else None)
  {
  }

  /** `AirBnBCommand.__tokens`: a single dictionary, set and cleared in place
      through any command class, so every command sees the same slots. */
  class TokenTable {
    var slots: seq<Option<string>>

    constructor ()
      ensures slots == ClearedSlots
    {
      slots := ClearedSlots;
    }

    /** `reset_tokens`: every slot back to None. */
    method Reset()
      requires |slots| == SlotCount
      modifies this`slots
      ensures slots == ClearedSlots
    {
      var i := 0;
      while i < SlotCount
        invariant 0 <= i <= SlotCount && |slots| == SlotCount
        invariant forall j :: 0 <= j < i ==> slots[j] == None
      {
        slots := slots[i := None];
        i := i + 1;
      }
      assert forall j :: 0 <= j < SlotCount ==> slots[j] == ClearedSlots[j];
    }

    /** `set_tokens(tokens)`: the i-th slot takes the i-th token. */
    method Set(tokens: seq<string>)
      requires |slots| == SlotCount
      modifies this`slots
      ensures slots == Bound(old(slots), tokens)
    {
      var n := if |tokens| < SlotCount then |tokens| else SlotCount;
      var i := 0;
      while i < n
        invariant 0 <= i <= n && |slots| == SlotCount
        invariant slots == Bound(old(slots), tokens[..i])
      {
        slots := slots[i := Some(tokens[i])];
        i := i + 1;
        assert slots == Bound(old(slots), tokens[..i]) by {
          assert forall j :: 0 <= j < SlotCount ==> slots[j] == Bound(old(slots), tokens[..i])[j];
        }
      }
      assert slots == Bound(old(slots), tokens) by {
        assert forall j :: 0 <= j < SlotCount ==> slots[j] == Bound(old(slots), tokens)[j];
      }
    }
  }

  // ---------------------------------------------------------------------
  // The validation chain

  const ClassNameMissing: string := "** class name missing **"
  const InstanceIdMissing: string := "** instance id missing **"
  const AttributeNameMissing: string := "** attribute name missing **"
  const ValueMissing: string := "** value missing **"

  /** Python truthiness of a slot: None and "" are false. */
  predicate Filled(slot: Option<string>)
  {
    slot.Some? && slot.value != ""
  }

  /** `get_model_name`: the first slot, or a diagnostic when it is falsy. */
  function GetModelName(slots: seq<Option<string>>): (r: Reply<string>)
    requires |slots| == SlotCount
    ensures r.value.Some? <==> Filled(slots[ModelNameSlot])
    ensures r.value.Some? ==> r.value.value == slots[ModelNameSlot].value && r.printed == []
    ensures r.value.None? ==> r.printed == [ClassNameMissing]
  {
    var name := slots[ModelNameSlot];
    if !Filled(name) then Reply(None, [ClassNameMissing]) else Reply(Some(name.value), [])
  }

  /** `get_instance_id`: the second slot, or a diagnostic when it is falsy. */
  function GetInstanceId(slots: seq<Option<string>>): (r: Reply<string>)
    requires |slots| == SlotCount
    ensures r.value.Some? <==> Filled(slots[InstanceIdSlot])
    ensures r.value.Some? ==> r.value.value == slots[InstanceIdSlot].value && r.printed == []
    ensures r.value.None? ==> r.printed == [InstanceIdMissing]
  {
    var id := slots[InstanceIdSlot];
    if !Filled(id) then Reply(None, [InstanceIdMissing]) else Reply(Some(id.value), [])
  }

  /** `get_attribute_name_value_pair`: the name is checked before the value,
      and one diagnostic names the first of them that is falsy. */
  function GetAttributePair(slots: seq<Option<string>>): (r: Reply<(string, string)>)
    requires |slots| == SlotCount
    ensures r.value.Some? <==> Filled(slots[AttributeNameSlot]) && Filled(slots[AttributeValueSlot])
    ensures r.value.Some? ==>
      r.value.value == (slots[AttributeNameSlot].value, slots[AttributeValueSlot].value) && r.printed == []
    ensures r.printed == [AttributeNameMissing] <==> !Filled(slots[AttributeNameSlot])
    ensures r.printed == [ValueMissing] <==> Filled(slots[AttributeNameSlot]) && !Filled(slots[AttributeValueSlot])
  {
    var name := slots[AttributeNameSlot];
    var value := slots[AttributeValueSlot];
    if !Filled(name) then Reply(None, [AttributeNameMissing])
    else if !Filled(value) then Reply(None, [ValueMissing])
    else Reply(Some((name.value, value.value)), [])
  }

  /** `AirBnBCommand.get_model_class`: a registered class name, or the
      diagnostic of the first check that fails. */
  function GetCommandModelClass(slots: seq<Option<string>>): (r: Reply<string>)
    requires |slots| == SlotCount
    ensures r.value.Some? <==> Filled(slots[ModelNameSlot]) && IsModelName(slots[ModelNameSlot].value)
    ensures r.value.Some? ==> r.value.value == slots[ModelNameSlot].value && r.printed == []
    ensures r.value.None? ==>
      r.printed == [if Filled(slots[ModelNameSlot]) then ClassDoesNotExist else ClassNameMissing]
  {
    var name := GetModelName(slots);
    if name.value.None? then Reply(None, name.printed)
    else GetModelClass(name.value.value)
  }

  /** `get_model_instance`: class name, class, id and lookup are checked in
      that order; the first failing check prints its one diagnostic.  A key
      that holds None (left there by `reload`) fails silently. */
  function GetModelInstance(slots: seq<Option<string>>, objects: Objects): (r: Reply<(string, Entity)>)
    requires |slots| == SlotCount
    ensures !Filled(slots[ModelNameSlot]) ==> r == Reply(None, [ClassNameMissing])
    ensures Filled(slots[ModelNameSlot]) && !IsModelName(slots[ModelNameSlot].value) ==>
      r == Reply(None, [ClassDoesNotExist])
    ensures Filled(slots[ModelNameSlot]) && IsModelName(slots[ModelNameSlot].value) ==>
      var name := slots[ModelNameSlot].value;
      && (!Filled(slots[InstanceIdSlot]) ==> r == Reply(None, [InstanceIdMissing]))
      && (Filled(slots[InstanceIdSlot]) ==>
            var key := name + "." + slots[InstanceIdSlot].value;
            && (key !in objects ==> r == Reply(None, [NoInstanceFound]))
            && (key in objects && objects[key].None? ==> r == Reply(None, []))
            && (key in objects && objects[key].Some? ==> r == Reply(Some((name, objects[key].value)), [])))
  {
    var cls := GetCommandModelClass(slots);
    if cls.value.None? then Reply(None, cls.printed)
    else
      var id := GetInstanceId(slots);
      if id.value.None? then Reply(None, id.printed)
      else
        var found := FindObj(objects, cls.value.value, Str(id.value.value));
        if found.value.None? then Reply(None, found.printed)
        else Reply(Some((cls.value.value, found.value.value)), [])
  }

  /** The key the first two slots name. */
  function TokenKey(slots: seq<Option<string>>): string
    requires |slots| == SlotCount && Filled(slots[ModelNameSlot]) && Filled(slots[InstanceIdSlot])
  {
    slots[ModelNameSlot].value + "." + slots[InstanceIdSlot].value
  }

  /** Once the key the tokens name is gone, the lookup reports it missing:
      `destroy` followed by `show` prints "** no instance found **". */
  lemma LookupAfterRemoval(slots: seq<Option<string>>, objects: Objects)
    requires |slots| == SlotCount && Filled(slots[ModelNameSlot]) && Filled(slots[InstanceIdSlot])
    requires IsModelName(slots[ModelNameSlot].value)
    ensures GetModelInstance(slots, objects - {TokenKey(slots)}) == Reply(None, [NoInstanceFound])
  {
  }

  /** The lookup prints at most one line, and none when it succeeds. */
  lemma LookupPrintsOneLine(slots: seq<Option<string>>, objects: Objects)
    requires |slots| == SlotCount
    ensures |GetModelInstance(slots, objects).printed| <= 1
    ensures GetModelInstance(slots, objects).value.Some? ==> GetModelInstance(slots, objects).printed == []
  {
  }

  // ---------------------------------------------------------------------
  // The commands

  /** A line a command prints: a diagnostic or text, one instance (`str`),
      or a list of instances (`str` of a list). */
  datatype Printed = Message(text: string) | Shown(obj: Entity) | Listing(objs: seq<Option<Entity>>)

  function Lines(msgs: seq<string>): (r: seq<Printed>)
    ensures |r| == |msgs| && forall i :: 0 <= i < |msgs| ==> r[i] == Message(msgs[i])
  {
    if msgs == [] then [] else [Message(msgs[0])] + Lines(msgs[1..])
  }

  /** The five concrete subclasses of `AirBnBCommand`. */
  datatype Kind = CreateKind | ShowKind | DestroyKind | AllKind | UpdateKind

  /** One command object: which subclass it is, the token table it shares
      with every other command and the storage it was built with. */
  class Command {
    const kind: Kind
    const table: TokenTable
    const storage: FileStorage

    constructor (kind: Kind, table: TokenTable, storage: FileStorage)
      ensures this.kind == kind && this.table == table && this.storage == storage
    {
      this.kind := kind;
      this.table := table;
      this.storage := storage;
    }

    ghost predicate Ready()
      reads this, table, storage
    {
      |table.slots| == SlotCount && storage.Valid()
    }

    /** `CreateCommand.execute`: for a registered class name, a new instance
        with a fresh id is registered and saved; otherwise one diagnostic and
        no change.  Nothing is printed on success.  `freshId` and `now` stand
        for the uuid and the clock reading of the new instance. */
    method ExecuteCreate(freshId: string, now: string) returns (r: Outcome, out: seq<Printed>)
      requires kind == CreateKind && Ready()
      modifies storage`order, storage`objects, storage`saves, storage`persisted
      ensures storage.Valid()
      ensures var cls := GetCommandModelClass(table.slots);
        && (cls.value.None? ==> r == Completed && out == Lines(cls.printed) && unchanged(storage))
        && (cls.value.Some? ==>
              var key := cls.value.value + "." + freshId;
              && out == []
              && (freshId == "" ==>
                    storage.objects == old(storage.objects) && storage.order == old(storage.order))
              && (freshId != "" ==>
                    && key in storage.objects && storage.objects[key].Some?
                    && fresh(storage.objects[key].value)
                    && storage.objects[key].value.kind == cls.value.value
                    && storage.objects[key].value.attrs == FreshAttrs(freshId, now)
                    && storage.objects == old(storage.objects)[key := storage.objects[key]]
                    && storage.order ==
                         (if key in old(storage.objects) then old(storage.order) else old(storage.order) + [key]))
              && storage.SaveEffect(old(storage.saves), old(storage.persisted), r))
    {
      var cls := GetCommandModelClass(table.slots);
      out := Lines(cls.printed);
      if cls.value.None? {
        r := Completed;
        return;
      }
      var e := new Entity(cls.value.value, FreshAttrs(freshId, now));
      storage.New(e);
      r := storage.Save();
    }

    /** `create` as its documentation describes it: the same effect, and,
        once the save has gone through, the new id printed, so that
        `show <class> <id>` finds the instance. */
    method ExecuteCreateReportingId(freshId: string, now: string) returns (r: Outcome, out: seq<Printed>)
      requires kind == CreateKind && Ready()
      modifies storage`order, storage`objects, storage`saves, storage`persisted
      ensures storage.Valid()
      ensures var cls := GetCommandModelClass(table.slots);
        && (cls.value.None? ==> r == Completed && out == Lines(cls.printed) && unchanged(storage))
        && (cls.value.Some? ==>
              var key := cls.value.value + "." + freshId;
              && out == (if r.Completed? then [Message(freshId)] else [])
              && (freshId == "" ==>
                    storage.objects == old(storage.objects) && storage.order == old(storage.order))
              && (freshId != "" ==>
                    && key in storage.objects && storage.objects[key].Some?
                    && storage.objects == old(storage.objects)[key := storage.objects[key]]
                    && storage.order ==
                         (if key in old(storage.objects) then old(storage.order) else old(storage.order) + [key]))
              && storage.SaveEffect(old(storage.saves), old(storage.persisted), r)
              // the printed id names the new instance
              && (freshId != "" ==>
                    var found := GetModelInstance(Bound(table.slots, [cls.value.value, freshId]), storage.objects);
                    && found.value.Some?
                    && found.value.value.1 == storage.objects[key].value
                    && fresh(found.value.value.1)
                    && found.value.value.1.kind == cls.value.value
                    && found.value.value.1.attrs == FreshAttrs(freshId, now)))
    {
      r, out := ExecuteCreate(freshId, now);
      var cls := GetCommandModelClass(table.slots);
      if cls.value.Some? && r.Completed? {
        out := [Message(freshId)];
      }
    }

    /** `ShowCommand.execute`: the instance the tokens name, or the one
        diagnostic of the lookup; the registry is only read. */
    method ExecuteShow() returns (out: seq<Printed>)
      requires kind == ShowKind && Ready()
      ensures var found := GetModelInstance(table.slots, storage.objects);
        out == Lines(found.printed) + (if found.value.Some? then [Shown(found.value.value.1)] else [])
      ensures |out| <= 1
    {
      var found := GetModelInstance(table.slots, storage.objects);
      LookupPrintsOneLine(table.slots, storage.objects);
      out := Lines(found.printed);
      if found.value.Some? {
        out := out + [Shown(found.value.value.1)];
      }
    }

    /** `DestroyCommand.execute`: after a successful lookup, `remove_obj` with
        the class name and the instance's own `id` attribute (which `update`
        may have changed).  A missing `id` attribute raises AttributeError. */
    method ExecuteDestroy() returns (r: Outcome, out: seq<Printed>)
      requires kind == DestroyKind && Ready()
      modifies storage`order, storage`objects, storage`saves, storage`persisted
      ensures storage.Valid()
      ensures var found := GetModelInstance(table.slots, old(storage.objects));
        found.value.None? ==> r == Completed && out == Lines(found.printed) && unchanged(storage)
      ensures var found := GetModelInstance(table.slots, old(storage.objects));
        found.value.Some? && "id" !in found.value.value.1.attrs ==>
          r == Raised(AttributeError) && out == [] && unchanged(storage)
      ensures var found := GetModelInstance(table.slots, old(storage.objects));
        found.value.Some? && "id" in found.value.value.1.attrs ==>
          var (name, e) := found.value.value;
          var removal := FindObj(old(storage.objects), name, e.attrs["id"]);
          && out == Lines(removal.printed)
          && (removal.value.None? ==> r == Completed && unchanged(storage))
          && (removal.value.Some? ==>
                && storage.objects == old(storage.objects) - {ObjKey(name, e.attrs["id"]).value}
                && storage.order == Without(old(storage.order), ObjKey(name, e.attrs["id"]).value)
                && storage.SaveEffect(old(storage.saves), old(storage.persisted), r))
      // when the instance still carries the id of its key, exactly that key goes
      ensures var found := GetModelInstance(table.slots, old(storage.objects));
        found.value.Some? && "id" in found.value.value.1.attrs &&
        found.value.value.1.attrs["id"] == Str(table.slots[InstanceIdSlot].value) ==>
          && storage.objects == old(storage.objects) - {TokenKey(table.slots)}
          && storage.order == Without(old(storage.order), TokenKey(table.slots))
          && GetModelInstance(table.slots, storage.objects) == Reply(None, [NoInstanceFound])
    {
      var found := GetModelInstance(table.slots, storage.objects);
      if found.value.None? {
        r, out := Completed, Lines(found.printed);
        return;
      }
      var (name, e) := found.value.value;
      if "id" !in e.attrs {
        r, out := Raised(AttributeError), [];
        return;
      }
      var printed;
      r, printed := storage.RemoveObj(name, e.attrs["id"]);
      out := Lines(printed);
      if e.attrs["id"] == Str(table.slots[InstanceIdSlot].value) {
        LookupAfterRemoval(table.slots, old(storage.objects));
      }
    }

    /** `AllCommand.execute`: with an empty argument line every stored value;
        otherwise the instances of the validated class, or one diagnostic. */
    method ExecuteAll(line: string) returns (out: seq<Printed>)
      requires kind == AllKind && Ready()
      ensures line == "" ==> out == [Listing(FindAll(storage.order, storage.objects, ""))]
      ensures line != "" ==>
        var cls := GetCommandModelClass(table.slots);
        && (cls.value.None? ==> out == Lines(cls.printed))
        && (cls.value.Some? ==> out == [Listing(FindAll(storage.order, storage.objects, cls.value.value))])
      ensures |out| == 1
    {
      if line == "" {
        return [Listing(FindAll(storage.order, storage.objects, ""))];
      }
      var cls := GetCommandModelClass(table.slots);
      if cls.value.None? {
        return Lines(cls.printed);
      }
      out := [Listing(FindAll(storage.order, storage.objects, cls.value.value))];
    }

    /** `UpdateCommand.execute`: after a successful lookup and a complete
        name/value pair, `update_obj_attribute` with the class name, the
        instance's own `id` attribute and the value as a string. */
    method ExecuteUpdate() returns (r: Outcome, out: seq<Printed>)
      requires kind == UpdateKind && Ready()
      modifies storage`saves, storage`persisted, storage.Entities()
      ensures var found := GetModelInstance(table.slots, storage.objects);
        found.value.None? ==>
          r == Completed && out == Lines(found.printed) && unchanged(storage) && unchanged(storage.Entities())
      ensures var found := GetModelInstance(table.slots, storage.objects);
        var pair := GetAttributePair(table.slots);
        found.value.Some? && pair.value.None? ==>
          r == Completed && out == Lines(pair.printed) && unchanged(storage) && unchanged(storage.Entities())
      ensures var found := GetModelInstance(table.slots, storage.objects);
        var pair := GetAttributePair(table.slots);
        found.value.Some? && pair.value.Some? && "id" !in old(found.value.value.1.attrs) ==>
          r == Raised(AttributeError) && out == [] && unchanged(storage) && unchanged(storage.Entities())
      ensures var found := GetModelInstance(table.slots, storage.objects);
        var pair := GetAttributePair(table.slots);
        found.value.Some? && pair.value.Some? && "id" in old(found.value.value.1.attrs) ==>
          var name := found.value.value.0;
          var id := old(found.value.value.1.attrs)["id"];
          var target := FindObj(storage.objects, name, id);
          && out == Lines(target.printed)
          && (forall o :: o in old(storage.Entities()) && o !in Target(storage.objects, name, id) ==>
                o.attrs == old(o.attrs))
          && storage.SnapshotFollows(old(storage.saves), old(storage.persisted))
          && (target.value.None? ==> r == Completed && storage.saves == old(storage.saves))
          && (target.value.Some? ==>
                Step(Batch(old(target.value.value.attrs), old(storage.saves), Completed),
                     (pair.value.value.0, Str(pair.value.value.1)), AllPresent(storage.objects))
                  == Batch(target.value.value.attrs, storage.saves, r))
    {
      var found := GetModelInstance(table.slots, storage.objects);
      if found.value.None? {
        r, out := Completed, Lines(found.printed);
        return;
      }
      var (name, e) := found.value.value;
      var pair := GetAttributePair(table.slots);
      if pair.value.None? {
        r, out := Completed, Lines(pair.printed);
        return;
      }
      if "id" !in e.attrs {
        r, out := Raised(AttributeError), [];
        return;
      }
      var (attributeName, attributeValue) := pair.value.value;
      var printed;
      r, printed := storage.UpdateObjAttribute(name, e.attrs["id"], attributeName, Str(attributeValue));
      out := Lines(printed);
    }
  }
}
