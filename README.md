# ParseCAN bus specification layer, modelled in Dafny

This project models the specification layer of a CAN bus in ParseCAN. It has four parts:

- the **unique collection** of message definitions (`plural.Unique('name', 'id')`). It is an
  insertion-ordered sequence in which no two messages share a name or an id.
- the **bus** (`Bus`). It owns such a collection and builds it from three input shapes: a
  collection (copied), a list, or a name-keyed mapping whose values are messages or the
  keyword arguments of one. It decodes a frame by fanning it out to every message.
- the **filtered view** (`BusFiltered`). It wraps a bus and checks a list of interests (int
  ids, str names) against it when they are assigned. It shows, on every access, the wrapped
  bus's messages that are of interest, in the bus's order. Its inherited `unpack` therefore
  decodes only those.
- the **enumeration** (`Enumeration`). It is a named integer checked against `[0, max_value]`
  each time its value is set.

Files:

- `wrappers.dfy`: `Option`, `Result` and `Outcome`. These stand in for the source's exceptions.
- `messages.dfy`: what this layer consumes from a message, plus the error conditions.
  - A message is its `name`, its `id` and its decoder `unpack: Frame -> Option<Fields>`.
  - A decoder result is truthy when it is present and non-empty.
  - `Frame` and `MessageArgs` are opaque.
  - The external Message constructor is a parameter of type `Constructor`. It either fails
    with a reason or yields everything about a message except its name. That name is always
    the mapping key the constructor is called for.
- `plural.dfy`: the `Unique` class and the pure functions (`Find`, `Added`, `Extended`) that
  specify its methods.
- `bus.dfy`: these pieces:
  - the `Bus` and `BusFiltered` classes;
  - the normalisation of the `messages` input (`Normalized`, `Filled`, `AddEntry`);
  - the decoding specification `Decoded` and the loop `DecodeAll` that both classes' `Unpack`
    use;
  - the filter (`Interested`, `Filter`);
  - the interest check (`Problem`, `InterestsCheck`, `CheckInterests`).
- `enumeration.dfy`: the `Enumeration` class and its construction.

Behaviour worth knowing, as the code has it:

- Assigning a list or a mapping installs a fresh, empty collection and only then fills it. For a
  mapping, the source's own loop adds entry by entry: if an add fails, the bus keeps the entries
  added before the failure and the error escapes. For a list, the fill is `extend` of the
  collection, whose behaviour on failure is modelled, not taken from the source (see
  "## Left out"): it too keeps the messages added before the colliding one.
  `Bus.SetMessages` states this: its `Built(items, outcome)` is exactly `Normalized(...)`.
  `Bus.Create` returns no bus on any failure.
- The error of a dict-valued entry is annotated with the entry's key (`InMessage(key, cause)`).
  This covers a failure to build the message and also a duplicate key when the built message
  is added. A message-valued entry's duplicate-key error is not annotated.
- The `value` setter stores the new value before checking it. After a rejected set the
  out-of-range value remains stored, so `Valid()` no longer holds.
- Construction of an `Enumeration` checks twice. The generated initialiser runs the setter
  while the only `max_value` visible is the class default 2**64. `__post_init__` then installs
  the supplied bound and checks again.
- `BusFiltered` never caches its messages. `Messages()` is a function of the wrapped bus's
  current collection and of the stored interests.

## Model

| member | source | states |
|---|---|---|
| `Plural.Added` | ParseCAN/spec/bus/bus.py:41 | Adding succeeds exactly when no held message shares the new one's name or id. On success the result is the old sequence plus the message, and uniqueness is kept. On failure the error names a key that the message shares with a held one. |
| `Plural.ExtendedSpec` | ParseCAN/spec/bus/bus.py:32-36 | Extending a unique sequence keeps it unique. It succeeds exactly when the concatenation is unique, and then holds the concatenation. In every case it holds the original followed by a prefix of the added list. |
| `Plural.ExtendedFailure` | ParseCAN/spec/bus/bus.py:35 | A failed extend holds the original followed by the messages added before the colliding one. The reported error is that message's collision. |
| `Plural.Unique.constructor` | ParseCAN/spec/bus/bus.py:32 | A new collection is empty and valid. |
| `Plural.Unique.Add` | ParseCAN/spec/bus/bus.py:52 | Appends the message when neither key collides. Otherwise it fails with that key and leaves the contents unchanged. Validity is kept. |
| `Plural.Unique.Extend` | ParseCAN/spec/bus/bus.py:35 | The new contents and the outcome are exactly those of adding each message in order and stopping at the first collision. |
| `Plural.Unique.Copy` | ParseCAN/spec/bus/bus.py:28 | Returns a freshly allocated collection with the same contents in the same order. It does not share storage with the original. |
| `Plural.Unique.ByName` | ParseCAN/spec/bus/bus.py:89 | It finds a held message with that name exactly when one exists. Otherwise it fails with not-found for that name. |
| `Plural.Unique.ById` | ParseCAN/spec/bus/bus.py:87 | It finds a held message with that id exactly when one exists. Otherwise it fails with not-found for that id. |
| `Plural.LookupIsUnique` | ParseCAN/spec/bus/bus.py:87-89 | In a unique collection, looking up a held message's name or id returns that very message. |
| `CanBus.AddEntry` | ParseCAN/spec/bus/bus.py:39-52 | A dict-valued entry becomes a message named by its key. Any failure to build or add it is reported as `InMessage(key, cause)`, and a construction failure keeps its reason as the cause. A message-valued entry is added unchanged, and its errors are not annotated. |
| `CanBus.FilledSpec` | ParseCAN/spec/bus/bus.py:38-52 | Filling from a mapping keeps uniqueness. It appends, in iteration order, the message of each entry up to the first entry that fails. It succeeds exactly when every entry was added. On failure the error is the one that entry raises. |
| `CanBus.MappingNamesFromKeys` | ParseCAN/spec/bus/bus.py:38-41 | After a successful fill from a mapping, the collection has one message per entry. Each dict-valued entry's message is named by its key, and each message-valued entry's message is that message. |
| `CanBus.ExtendedIsFilled` | ParseCAN/spec/bus/bus.py:34-52 | Extending by a list gives the same contents and outcome as filling from the mapping of each message's name to that message. |
| `CanBus.ListAndMappingAgree` | ParseCAN/spec/bus/bus.py:32-52 | Assigning a list of messages and assigning the sequence of `(name, message)` entries of the same messages give the same bus contents and the same outcome. For a list with distinct names, that sequence is the name-keyed mapping of the messages. For a repeated name it repeats a key, which no Python dict does. |
| `CanBus.DecodedKeys` | ParseCAN/spec/bus/bus.py:60-67 | The keys of `unpack`'s result are exactly the names of the messages whose decoder returned a truthy value. |
| `CanBus.DecodedValues` | ParseCAN/spec/bus/bus.py:61-65 | With unique names, each matching message's name maps to exactly its decoder's result. |
| `CanBus.DecodeAll` | ParseCAN/spec/bus/bus.py:60-67 | The loop that probes every message in order and keeps the truthy results computes exactly `Decoded`. |
| `CanBus.FanOutExample` | ParseCAN/spec/bus/bus.py:60-67 | With messages A, B and C where only B matches, the result is exactly `{"B": B's fields}`. |
| `CanBus.Interested` | ParseCAN/spec/bus/bus.py:99-101 | A message is of interest exactly when some interest is a str equal to its name or an int equal to its id. |
| `CanBus.FilterMembers` | ParseCAN/spec/bus/bus.py:99-105 | Every selected message is held by the bus and is of interest. Every held message of interest is selected. |
| `CanBus.FilterAppend` | ParseCAN/spec/bus/bus.py:103-105 | Filtering distributes over concatenation. The view therefore keeps the bus's relative order. |
| `CanBus.FilterUnique` | ParseCAN/spec/bus/bus.py:103-105 | The messages of a view of a unique collection are unique too. `DecodedValues` therefore applies to a view's `unpack`. |
| `CanBus.FilteredDecodeKeys` | ParseCAN/spec/bus/bus.py:73-105 | The inherited `unpack` on a view yields exactly the names of the messages that are of interest and match the frame. |
| `CanBus.Problem` | ParseCAN/spec/bus/bus.py:84-95 | An int interest resolves exactly when some message has that id, and a str interest exactly when some message has that name. Any other type is a wrong-type problem. |
| `CanBus.InterestsCheckSpec` | ParseCAN/spec/bus/bus.py:83-97 | The interests are accepted exactly when every one of them resolves. Otherwise the error names the bus, the first interest that does not resolve, and its problem. |
| `CanBus.CheckInterests` | ParseCAN/spec/bus/bus.py:84-95 | The setter's validation loop, with its lookups by id and name, computes exactly `InterestsCheck`. |
| `CanBus.FilteredViewExample` | ParseCAN/spec/bus/bus.py:83-105 | Take ids 1, 2, 3 with names x, y, z. The interests [1, "z"] are accepted and select x and z in that order. [99] is rejected as missing, and a float is rejected as the wrong type. |
| `CanBus.Bus.Init` | ParseCAN/spec/bus/bus.py:16-19 | Stores the name, baudrate and extended flag, and starts with an empty, fresh collection. |
| `CanBus.Bus.Create` | ParseCAN/spec/bus/bus.py:16-52 | A bus is returned exactly when the assignment of its messages succeeds, and then holds the normalised contents. Otherwise the assignment's error is returned. |
| `CanBus.Bus.SetMessages` | ParseCAN/spec/bus/bus.py:25-52 | A collection input is copied into fresh storage. A list or mapping input leaves a fresh collection whose contents and outcome are exactly `Normalized`, including the partial contents after a failure. A missing or empty input gives an empty collection. The other fields are unchanged. |
| `CanBus.AssignmentIsolation` | ParseCAN/spec/bus/bus.py:27-30 | After a collection is assigned, adding to the bus's collection and adding to the original do not affect each other. |
| `CanBus.Bus.Unpack` | ParseCAN/spec/bus/bus.py:54-67 | The result is the decoding of the frame by every message of the bus. |
| `CanBus.Bus.ToString` | ParseCAN/spec/bus/bus.py:69-70 | The string form of a bus is its name. |
| `CanBus.BusFiltered.Init` | ParseCAN/spec/bus/bus.py:74-76 | Stores the wrapped bus (not a copy) and the interests. It can be called only with interests the setter's check accepts against that bus, as `__init__` assigns through the setter. |
| `CanBus.BusFiltered.Create` | ParseCAN/spec/bus/bus.py:74-97 | A view is built exactly when the interests pass the check against the bus as it is now. Otherwise the check's error is returned. |
| `CanBus.BusFiltered.SetInterests` | ParseCAN/spec/bus/bus.py:82-97 | The outcome is the interest check. The interests are stored only on success, so a rejected assignment leaves the previous interests in place. |
| `CanBus.BusFiltered.Messages` | ParseCAN/spec/bus/bus.py:103-105 | Every message of the view is held by the wrapped bus now and is of interest. Every held message of interest is in the view. The view is never longer than the bus's collection. |
| `CanBus.BusFiltered.Unpack` | ParseCAN/spec/bus/bus.py:73 | The inherited `unpack` decodes over the filtered messages only. |
| `CanBus.BusFiltered.ToString` | ParseCAN/spec/bus/bus.py:107-108 | The string form of a view is the wrapped bus's name, reached through forwarding. |
| `CanBus.BusFiltered.Baudrate` | ParseCAN/spec/bus/bus.py:107-108 | `baudrate` is the wrapped bus's. |
| `CanBus.BusFiltered.Extended` | ParseCAN/spec/bus/bus.py:18 | As written, `extended` on a view is the class default False, whatever the wrapped bus says. |
| `CanBus.BusFiltered.ForwardedExtended` | ParseCAN/spec/bus/bus.py:107-108 | As intended, `extended` is forwarded to the wrapped bus. |
| `CanBus.ExtendedNotForwarded` | ParseCAN/spec/bus/bus.py:18 | On a view of a bus whose `extended` is true, the as-written lookup disagrees with the bus and the forwarded one agrees. |
| `Enumerations.Enumeration.Raw` | ParseCAN/spec/bus/enumeration.py:3-7 | The generated initialiser's stores happen before any check, and the bound seen is the default 2**64. |
| `Enumerations.Enumeration.Init` | ParseCAN/spec/bus/enumeration.py:3-11 | An enumeration built only after its value was checked is valid, and holds the given name, value and bound. |
| `Enumerations.Enumeration.Check` | ParseCAN/spec/bus/enumeration.py:22-24 | Passes exactly when `0 <= value <= max_value`. Otherwise it fails with a range error carrying the value. |
| `Enumerations.Enumeration.SetValue` | ParseCAN/spec/bus/enumeration.py:17-20 | The new value is always stored. The set fails exactly when the value is below 0 or above `max_value`. The name and the bound are unchanged. |
| `Enumerations.Enumeration.PostInit` | ParseCAN/spec/bus/enumeration.py:9-11 | Installs the supplied bound, keeps the value, and passes exactly when the value lies within the new bound. |
| `Enumerations.Enumeration.Contains` | ParseCAN/spec/bus/enumeration.py:26-27 | `x in e` holds exactly when `x` equals the value. |
| `Enumerations.NewEnumeration` | ParseCAN/spec/bus/enumeration.py:7-11 | Construction succeeds exactly when `0 <= value <= max_value` and `value <= 2**64`. It then yields a fresh, valid enumeration with the given name, value and bound. Otherwise it fails with a range error. |
| `Enumerations.EarlyCheckRejects` | ParseCAN/spec/bus/enumeration.py:7-11 | The value 2**64 + 1 lies within the bound 2**64 + 1, and construction still rejects it. |
| `Enumerations.NewEnumerationIntended` | ParseCAN/spec/bus/enumeration.py:7-11 | Construction that checks once against the supplied bound succeeds exactly when `0 <= value <= max_value`. |
| `Enumerations.ConstructionAgreesBelowDefault` | ParseCAN/spec/bus/enumeration.py:7-11 | For bounds up to 2**64, the two checks of construction accept exactly the values in `[0, max_value]`. |
| `Enumerations.BoundsInclusive` | ParseCAN/spec/bus/enumeration.py:23 | For a bound `max_value` between 0 and 2**64, both ends of the range, 0 and `max_value`, are accepted, and -1 and `max_value + 1` are not. Above 2**64, `max_value` itself is rejected by the first check (see `EarlyCheckRejects`). |
| `Enumerations.Enumeration.Equals` | ParseCAN/spec/bus/enumeration.py:3-7 | The generated equality holds exactly when the names and the values are equal. `max_value` is not a field and plays no part. |
| `Enumerations.EqualityIgnoresBound` | ParseCAN/spec/bus/enumeration.py:7 | Enumerations with equal names and values are equal, whatever their bounds. |

## Left out

- Message decoding and the frame representation are external. A message's decoder is an
  arbitrary total function, and a frame is opaque. The keyword options that `unpack` passes on
  to each message are not modelled.
- The implementation of the `plural` module is not part of this model. The collection is keyed
  on name and id only. `Plural.Added` checks the name before the id; that order is a choice.
  The lookups are linear searches rather than index maps.
- Plural.Extended: the item-by-item behaviour of `extend` on a collision (the earlier messages stay
  added, the rest are skipped) is a modelling choice, since `plural` is not part of this model.
  `Bus.SetMessages` on a list inherits it.
- Runtime type tests (`isinstance`) are not modelled. The `messages` input is a variant:
  collection, list, mapping as ordered `(key, entry)` pairs, or nothing (a falsy
  input). An interest is an int, a str, or any other value. Python's bool-is-int is ignored,
  and so is any other iterable passed as `messages`.
- CanBus.Normalized: a mapping is a sequence of `(key, entry)` pairs whose keys are not required
  to be distinct. Every Python dict has distinct keys, so a repeated key has no counterpart in the
  source.
- CanBus.Decoded: the result is a Dafny `map`, which has no order. The source's dict iterates its
  keys in message order, and the model does not capture that order.
- Dynamic attribute forwarding is not modelled in general. Only the string form, `baudrate`
  and `extended` are modelled, as explicit functions.
- The filtered `messages` is a single-pass lazy iterator in the source. The model returns a
  sequence, recomputed on every call, and does not capture the iterator's exhaustion.
- The interests list is stored by reference in the source, so a caller who later mutates it
  changes the view. The model stores a value.
- Error wording is not modelled. Errors are structured values, and the "in message <key>"
  annotation is the `InMessage(key, cause)` wrapper.
- Dataclass artefacts are not modelled. One is the property object that becomes the default of
  the `messages` and `value` fields. Others are the generated `repr` and `hash`, the class check
  in the generated equality, and the read-only `messages` of a view, whose assignment raises.
- The baudrate's positivity is not checked by the source, and the model accepts any integer.
- The scratch code at the end of enumeration.py is not part of the model.

## Findings

| source | as written | input that shows it | evidently intended | confidence | as-written member | corrected member |
|---|---|---|---|---|---|---|
| ParseCAN/spec/bus/enumeration.py:7-11 | The generated initialiser runs the `value` setter before `__post_init__` installs `max_value`, so the value is first checked against the class default 2**64. | `Enumeration('e', 2**64 + 1, max_value=2**64 + 1)` is rejected. | The value is checked only against the supplied `max_value`. | medium, not executed | `Enumerations.EarlyCheckRejects` | `Enumerations.NewEnumerationIntended` |
| ParseCAN/spec/bus/bus.py:18 | The dataclass leaves `extended = False` as a class attribute of `Bus`, so on a `BusFiltered` the normal lookup finds it and `__getattr__` never forwards it. | A view of a bus built with `extended=True` reports `extended == False`. | `extended` is forwarded to the wrapped bus like `name` and `baudrate`. | medium, not executed | `CanBus.ExtendedNotForwarded` | `CanBus.BusFiltered.ForwardedExtended` |
