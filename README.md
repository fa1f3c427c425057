# AirBnB clone console: registry, commands and dispatch, in Dafny

This project models the core of a Python AirBnB clone's command interpreter.

- `FileStorage` is the object registry. It is one dictionary from
  `"<ClassName>.<id>"` to a model instance, over seven registered model
  classes. It can register, find, remove, list, count and update instances,
  and it can reload itself from a JSON file.
- The command layer has a token table shared by every command. A chain of
  validation getters reads the table, and each getter prints one diagnostic
  when it fails. There are five commands: `create`, `show`, `destroy`, `all`
  and `update`.
- The console's dispatch lifecycle has three parts. `precmd` binds a command
  line's tokens, and `postcmd` clears them. A bounded command history is
  loaded from, and written back to, a history file.

The model has four modules:

- `PyValues` (`py_values.dfy`) holds the Python values an instance attribute
  can hold (`Str`, `Int`, `Bool`, `Callable`, `Other`). It also gives their
  truthiness, `str()`, `str.strip` and `int()` of a string.
- `Storage` (`file_storage.dfy`) holds the registry:
  - `class FileStorage` keeps the dictionary in two fields. `objects` maps each
    key to `Option<Entity>`, because `reload` stores None for a record it
    cannot rebuild. `order` lists the keys in insertion order.
  - Instances are `class Entity`, with an attribute map that is changed in
    place.
  - `save()` is an abstract flush: a counter `saves` and the snapshot
    `persisted` it last wrote.
  - The attribute-update rule of `_update_obj_attribute` is the function
    `AttributeUpdate`.
  - A run of `update_obj_attributes` is specified by `Run`, which folds
    `Step` over the entries.
- `Commands` (`console_commands.dfy`) holds the command layer:
  - the shared `TokenTable` with four positional slots;
  - the getters, as functions of the slots and the registry;
  - `class Command`, which carries the subclass as `kind` and has one
    `Execute…` method per subclass.
- `Console` (`console.py`'s `HBNBCommand`) holds:
  - the keyword table;
  - `Precmd` and `Postcmd`, with the tokenizer's result as an input;
  - `AddHistory`, which the program defines but never calls: its one call in
    `precmd` is commented out, so the history holds only the lines loaded
    from the file;
  - `LoadHistory`, with the history file's lines as an input;
  - `DoQuit`, which returns the lines `save_history` would write.

Every line a method prints is returned in a sequence. In `Commands` and
`Console` these are `Printed` values or strings.

## Model

| member | source | states |
|---|---|---|
| Storage.ObjKey | models/engine/file_storage.py:217-230 | A key exists exactly when the model name and the id are truthy. Then it is the name, a dot, and the id's `str`. |
| Storage.KeyRoundTrip | models/engine/file_storage.py:217-230 | A key built from a dot-free class name splits at its first dot back into that class name and the id's text. |
| Storage.KeyInjective | models/engine/file_storage.py:217-230 | Two keys built from dot-free class names are equal only when the names are equal and the ids' texts are equal. So there is one key per (class, id). |
| Storage.RegisteredKeyInjective | models/engine/file_storage.py:217-230 | Two instances of registered classes get the same key only when their classes are equal and their ids have the same text. |
| Storage.PrefixOfModelKey | models/engine/file_storage.py:19-27 | Among the seven registered names, a name is a prefix of `"<name'>.<rest>"` exactly when it equals `name'`. |
| Storage.GetModelClass | models/engine/file_storage.py:240-252 | A class is returned exactly for a registered name, with nothing printed. Any other name prints "** class doesn't exist **". |
| Storage.AttributeUpdate | models/engine/file_storage.py:150-177 | An absent attribute is set to the raw value, whatever its name. An existing `_`-prefixed or callable attribute is kept. An assignment keeps the attribute's type. Only a string or a value of the attribute's own type is taken. A str attribute takes a string as is. A bool attribute becomes the truthiness of the value, so "False" gives True. An int attribute becomes the parsed string, or raises ValueError when the string is not an int literal. A bool value becomes 0 or 1. A foreign attribute type raises. A raise comes only from `int()` of a non-literal string or from a foreign type. |
| Storage.IntAttributeFromText | models/engine/file_storage.py:173-177 | An int attribute updated with the decimal text of `n` becomes `n`. |
| Storage.IntAttributeFromNonNumber | models/engine/file_storage.py:173-177 | An int attribute updated with text that has no digit raises ValueError: the uncaught `int(value)`. |
| PyValues.ParseIntRoundTrip | models/engine/file_storage.py:177 | `int(str(i)) == i` for every int. |
| PyValues.ParseIntNeedsDigits | models/engine/file_storage.py:177 | `int()` of a string without a digit fails. |
| Storage.RunFromRaised | models/engine/file_storage.py:145-148 | Once an update has raised, the later entries of `update_obj_attributes` do nothing. |
| Storage.RunConcat | models/engine/file_storage.py:145-148 | Running `p + q` is running `p`, then `q` from where `p` stopped. Earlier updates and saves stay done: there is no rollback. |
| Storage.RunOfSkippedEntries | models/engine/file_storage.py:139-140 | Entries with a falsy name or value change neither the instance nor the number of saves. |
| Storage.Collect | models/engine/file_storage.py:61-66 | The dict `json.load` builds has distinct keys, exactly the members' keys. The last member's value wins. |
| Storage.CollectKeepsFirstOrder | models/engine/file_storage.py:61-66 | The dict's keys come in the order of their first appearance in the file. |
| Storage.Deserialize | models/engine/file_storage.py:196-215 | Only a member that is not a dict raises. None, or a record whose `__class__` is missing or falsy, gives None silently. A truthy `__class__` that is not a registered name gives None after the diagnostic. A record whose `__class__` is a registered name is always rebuilt, with that class and every field of the record except `__class__`. |
| Storage.RebuiltAttributes | models/engine/file_storage.py:204-215 | A rebuilt instance has exactly the inherited attributes and the record's fields except `__class__`. A field with the name of an inherited attribute overrides it. |
| Storage.FirstUnreadable | models/engine/file_storage.py:63-66 | The comprehension of `reload` stops at the first member `_deserialize` cannot read. Every member before it is readable. |
| Storage.CountPrefixedIsCard | models/engine/file_storage.py:193-194 | The generator of `count` counts the distinct keys that start with the name. |
| Storage.FindObj | models/engine/file_storage.py:71-88 | Nothing is printed or found for an unknown class or a falsy id. "** no instance found **" is printed exactly when the key is absent. Otherwise the stored value is returned. |
| Storage.FindAll | models/engine/file_storage.py:106-121 | An empty name gives every value in insertion order. An unknown name gives `[]`. A known name gives instances of exactly that class that are in the registry, and all of them. |
| Storage.OfKindIsFilter | models/engine/file_storage.py:120-121 | Collecting the instances of a class key by key is filtering the stored values, listed in key order, by class. |
| Storage.FindAllInInsertionOrder | models/engine/file_storage.py:106-121 | `find_all(name)` lists the instances of that class in the order `find_all()` lists every value, the keys' insertion order. |
| Storage.FindAllEverything | models/engine/file_storage.py:114-115 | `find_all()` has one entry per stored key, and every stored value is in it. |
| Storage.Count | models/engine/file_storage.py:179-194 | The result is None exactly for an empty or unknown name. Otherwise it is at most the number of keys. |
| Storage.CountIsCardinality | models/engine/file_storage.py:193-194 | For a known name, `count` is the number of keys that start with the name. |
| Storage.CountMatchesFindAll | models/engine/file_storage.py:179-194 | When every key is `"<kind>.<id>"` of its instance, `count(name)` equals `len(find_all(name))`. |
| Storage.CountWithForeignKey | models/engine/file_storage.py:193-194 | The prefix test without the dot counts a reloaded key "UserProfile.1" for "User", while `find_all("User")` is empty. |
| Storage.CollectOfDistinct | models/engine/file_storage.py:60-66 | A document whose member names are all different loads as exactly its members, in file order. |
| Storage.SavedRecordRebuilds | models/engine/file_storage.py:196-215 | The record `save` writes for an instance of a registered class is rebuilt as an instance of that class, with every saved attribute except `__class__`. |
| Storage.SavedDocumentReloads | models/engine/file_storage.py:47-69 | Reloading the document `save` wrote for the keys in `order` gives back every key in the same order, each with the record saved for it. Nothing raises and no diagnostic is printed. |
| Storage.FileStorage.constructor | models/engine/file_storage.py:17-18 | The registry starts empty, with no save made. |
| Storage.FileStorage.Save | models/engine/file_storage.py:47-55 | A save writes the class and attributes of every stored instance. It raises AttributeError, writing nothing, while a None is stored. |
| Storage.FileStorage.New | models/engine/file_storage.py:33-45 | An instance of a registered class with a truthy id is stored under `"<ClassName>.<id>"`, where `find_obj` finds it. A null instance or an unregistered class leaves the registry unchanged. So does a falsy or missing id, which is a departure (see Left out). The key order and its well-formedness are kept. |
| Storage.FileStorage.RemoveObj | models/engine/file_storage.py:90-104 | After a successful lookup, exactly that key is deleted, the others keep their order, one save follows, and a new lookup reports it missing. After a failed lookup, nothing changes and no save is made. |
| Storage.FileStorage.UpdateObjAttribute | models/engine/file_storage.py:123-143 | The registry is unchanged. When the lookup fails, or the name or value is falsy, nothing is changed or saved. Otherwise the found instance takes one `AttributeUpdate`, followed by one save unless the update raised. |
| Storage.FileStorage.UpdateObjAttributes | models/engine/file_storage.py:145-148 | The entries are applied in order as `Run`: the instance, the saves and the outcome are those of the fold. A failed lookup prints its diagnostic once per entry and changes nothing. |
| Storage.FileStorage.AssignAttribute | models/engine/file_storage.py:150-177 | The instance's attributes become `Applied(AttributeUpdate(...))`, and a failing conversion raises its exception. |
| Storage.FileStorage.Reload | models/engine/file_storage.py:57-69 | A missing or malformed file leaves the registry as it was. A document replaces it, with the keys in the order of their first appearance in the file, each mapped to a fresh instance or to None as `_deserialize` decides, and the "** class doesn't exist **" lines printed in order. A member that is not a record raises before anything is replaced. |
| Storage.FileStorage.Rebuild | models/engine/file_storage.py:63-66 | The comprehension builds one entry per key, with distinct fresh instances, and stops at the first unreadable record. |
| Storage.FileStorage.Instantiate | models/engine/file_storage.py:204-215 | `_deserialize` returns a fresh instance with the decoded class and attributes, or None. |
| Commands.Bound | console_commands.py:83-93 | After `set_tokens`, slot i holds token i for each i below `len(tokens)`. The other slots keep their previous values, and extra tokens are dropped. |
| Commands.RebindingOverrides | console_commands.py:83-93 | A binding with at least as many tokens hides every earlier binding. |
| Commands.BindingAfterReset | console_commands.py:74-93 | After `reset_tokens`, binding one line's tokens leaves exactly those tokens in the table. |
| Commands.TokenTable.constructor | console_commands.py:45-50 | The table starts with four None slots. |
| Commands.TokenTable.Reset | console_commands.py:74-81 | Every slot is None afterwards. |
| Commands.TokenTable.Set | console_commands.py:83-93 | The slots become `Bound(old slots, tokens)`. |
| Commands.GetModelName | console_commands.py:95-109 | The first slot is returned exactly when it is truthy. Otherwise "** class name missing **" is printed. |
| Commands.GetInstanceId | console_commands.py:111-125 | The second slot is returned exactly when it is truthy. Otherwise "** instance id missing **" is printed. |
| Commands.GetAttributePair | console_commands.py:127-146 | The pair is returned exactly when both slots are truthy. The name is checked before the value, and exactly one of the two diagnostics is printed when the pair is missing. |
| Commands.GetCommandModelClass | console_commands.py:148-164 | A class is returned exactly for a truthy, registered first slot. Otherwise the one diagnostic of the first failing check is printed. |
| Commands.GetModelInstance | console_commands.py:166-186 | The checks run in order: class name, class, id, then a lookup of `"<name>.<id>"`. The first failure prints its one diagnostic. A key that holds None fails silently. Otherwise the class and the stored instance are returned. |
| Commands.LookupPrintsOneLine | console_commands.py:166-186 | The lookup prints at most one line, and none when it succeeds. |
| Commands.LookupAfterRemoval | console_commands.py:166-186 | Once the key the tokens name is removed, the lookup prints "** no instance found **". |
| Commands.Command.constructor | console_commands.py:52-61 | A command keeps the storage it is given. |
| Commands.Command.ExecuteCreate | console_commands.py:199-211 | For a registered class, a fresh instance of that class is stored under `"<class>.<id>"`, its key goes last in the insertion order, the other entries are untouched, and a save follows, with nothing printed. Otherwise one diagnostic is printed and nothing changes. |
| Commands.Command.ExecuteCreateReportingId | console_commands.py:199-211 | This is the corrected `create` (see Findings). It has the same effect on the registry, its order and the saves. Once the save has gone through, it prints the new id, and a lookup with that id finds the new instance. |
| Commands.Command.ExecuteShow | console_commands.py:224-237 | It prints the looked-up instance, or the lookup's diagnostic: at most one line, and the registry is only read. |
| Commands.Command.ExecuteDestroy | console_commands.py:250-263 | Nothing changes before the lookup succeeds. Then `remove_obj` runs with the instance's own `id` attribute, and a missing `id` attribute raises AttributeError. The other keys keep their insertion order. When that id is still the token's, exactly the looked-up key is removed and a later `show` reports it missing. |
| Commands.Command.ExecuteAll | console_commands.py:276-292 | An empty argument line prints every value. Otherwise it prints the instances of the validated class, or the one diagnostic. It always prints exactly one line. |
| Commands.Command.ExecuteUpdate | console_commands.py:305-325 | Nothing changes until both the lookup and the name/value check succeed. Then `update_obj_attribute` runs with the instance's `id` attribute and the value as a string. Every stored instance other than the one that lookup finds keeps its attributes. |
| Console.HBNBCommand.constructor | console.py:48-54 | The keyword table holds exactly the five keywords. Each maps to a fresh command of its own class, and all share one token table and one storage. |
| Console.HBNBCommand.Precmd | console.py:172-195 | A line that fails to split, or splits into no tokens, returns "" and binds nothing. Otherwise the first token becomes the current command, the rest are bound only for a keyword, and the stripped line is returned. |
| Console.HBNBCommand.Postcmd | console.py:216-232 | After a keyword command the tokens are reset. The current command is always cleared, and `stop` is returned unchanged. |
| Console.Appended | console.py:197-202 | `add_history` keeps at most 100 entries from a buffer that was within the bound. The newest entry is the line, and the others are a suffix of the old buffer, in order. The program never calls `add_history`. |
| Console.AppendedKeepsNewest | console.py:197-202 | From a buffer within the bound, `add_history` keeps the same entries as the `load_history` trim: the newest 100. |
| Console.HBNBCommand.AddHistory | console.py:197-202 | The buffer becomes `Appended(old buffer, line)`. The program never calls it. |
| Console.KeepLast | console.py:243-245 | The trim keeps the last 100 entries in order, or all of them when there are fewer. |
| Console.HBNBCommand.LoadHistory | console.py:234-248 | A missing file changes nothing. Otherwise every line, stripped of newlines, is appended, and the newest 100 entries are kept. |
| Console.HBNBCommand.AppendLines | console.py:238-241 | The loop appends every file line with `strip("\n")` applied, in order. |
| Console.StripWrittenLine | console.py:239 | `strip("\n")` undoes the newline `save_history` adds to an entry that has no line break of its own. |
| Console.HistoryRoundTrip | console.py:250-254 | What `save_history` writes, `load_history` reads back into an empty buffer unchanged, when the buffer is within the bound and no entry holds a newline or a carriage return. |
| Console.HBNBCommand.DoQuit | console.py:98-124 | It returns True together with the lines `save_history` writes. Loading those lines gives back the history. |

## Findings

| source | as written | input that shows it | evidently intended | confidence | as-written member | corrected member |
|---|---|---|---|---|---|---|
| console_commands.py:199-211 | `CreateCommand.execute` stores and saves the new instance but prints nothing, so the user never learns the id to `show`, `update` or `destroy` it. | the line `create BaseModel`: the instance is stored, and the printed output is empty | Print the new instance's id. `do_create`'s help (console.py:59-64) says "Create a new class instance and print its id", and tests/test_console.py:51-59 read that id from the output and pass it to `show`. Those tests call `onecmd` directly, so they skip `precmd` and are weaker evidence than the help text. | high; not executed | Commands.Command.ExecuteCreate (its contract states `out == []` on success) | Commands.Command.ExecuteCreateReportingId (prints the id after a successful save; its contract proves that a lookup with that id finds the new instance) |

## Left out

- JSON and file I/O: `save` writes nothing. It records the snapshot it would serialize. `reload` takes the file's parsed content, or Missing/Malformed, as an input. The history file is a list of lines going in and coming out.
- models/base_model.py (BaseModel, `to_dict`, `__str__`, uuid and datetime) is not part of this model:
  - A new instance's attributes are `FreshAttrs(id, now)`. The id and the clock reading are parameters.
  - A rebuilt instance holds the record's fields, with the inherited methods and without `__class__`. The conversion of `created_at`/`updated_at` back to datetimes is not modelled.
  - The `updated_at` refresh that `BaseModel.save` makes before calling `storage.save()` is not modelled. `create` uses one clock reading.
  - A printed instance is the `Entity` itself, not its `str()` text.
  - The record `save` writes for an instance (`EncodeView`) is its attributes with `__class__` set to its class name. `to_dict`'s ISO strings for the datetimes, and its leaving out of methods, are not modelled. So `SavedRecordRebuilds` speaks of the attributes as saved.
- Conversions to float, datetime or any other foreign attribute type become `Fail(ForeignConversion)` rather than being computed. `int()` is modelled for ASCII digits, signs, underscores and whitespace, not for other Unicode digits.
- The non-string attribute-name guard of `_update_obj_attribute` is not modelled. Names are strings, and every caller passes a string.
- Storage.FileStorage.New: an instance whose `id` is falsy (such as "") is left unstored. In Python `_get_obj_key` returns None, and `new` stores the instance under the key None. The model's keys are strings, so that entry cannot be represented. `create` cannot reach the case, because its ids are uuid4 strings, which are never empty. An instance with no `id` attribute is also left unstored; in Python it would raise AttributeError.
- Commands.Command.ExecuteCreate: the `freshId == ""` clause of its contract follows the model of `new` above. For an empty id, Python would store the instance under None. Real ids are never empty.
- `get_models_classes`/`get_models_names`: `IsModelName` tests membership in the seven names. The `type(obj) in classes` test of `new` is `IsModelName(obj.kind)`.
- `all`: the registry's `all()` accessor just returns the dictionary, which the model exposes as the field `objects`.
- The `cmd.Cmd` loop is not modelled: `onecmd`, the `do_create` … `do_update` methods (each only passes its argument line to the command of its keyword), help and prompt. `shlex.split` is not modelled either. Its result is the input `Tokenized`. `readline.add_history` is left out.
- `emptyline` overrides `cmd.Cmd`'s repeat-last-command with nothing. There is no state to model.
- `do_EOF` is identical to `do_quit` and is modelled once, as `DoQuit`.
- The `default` dotted-call handler and the dict-form `update` are commented out in the source and are not modelled.
- A history entry containing a newline or a carriage return is written as one line but read back as two, because text mode reads with universal newlines. The history file is modelled as a list of lines, so `HistoryRoundTrip` assumes entries without either character.
- Storage.FileStorage.UpdateObjAttributes: does not restate that `persisted` equals the final registry's snapshot after the last successful save. It states only that `saves` never decreases and that `persisted` is unchanged while no save happened. `UpdateObjAttribute` states the snapshot per call.
- Storage.Collect: states that the last member's value wins for the last member's key only, not for every repeated key.
- The attribute rule sees only the inherited attributes `__class__`, `__init__`, `__str__`, `save` and `to_dict`, plus the instance's own. Two kinds of attribute that `hasattr` finds in Python are absent from the model:
  - other dunder attributes (`__dict__`, `__repr__`, …). The model would create them as new attributes. Their `_` prefix makes the model refuse them once they exist.
  - the class data attributes of the subclasses in models/ (for example `User.email`, `User.password`, `User.first_name`, `User.last_name`, all `""`). They are not part of this model. For the model, updating `email` on a fresh User sets it to the raw value. In Python, `email` exists as a str, so a string value is assigned just the same, but a non-string value (an int from a dict-style update) is refused.
