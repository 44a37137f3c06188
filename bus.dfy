/**
 * A CAN bus specification (bus.py): the bus aggregate owning its unique
 * collection of messages, the normalisation of the three accepted shapes of
 * its `messages` input, fan-out decoding of a frame, and the filtered view of
 * a bus restricted to a list of interests.
 */
module CanBus {
  import opened Wrappers
  import opened Messages
  import opened Plural

  /** The value of one entry of a name-keyed mapping: a ready message or its keyword arguments. */
  datatype Entry = Ready(message: Message) | Args(args: MessageArgs)

  /** The accepted shapes of a `messages` assignment; a mapping keeps its iteration order. */
  datatype MessagesInput =
    | FromUnique(source: Unique)
    | FromList(list: seq<Message>)
    | FromMapping(entries: seq<(string, Entry)>)
    | FromNothing

  /** The message an entry stands for, when the external constructor accepts its arguments. */
  function EntryMessage(key: string, entry: Entry, ctor: Constructor): Option<Message> {
    match entry
    case Ready(m) => Some(m)
    case Args(a) =>
      match ctor(a)
      case Success(l) => Some(Message(key, l.id, l.unpack))
      case Failure(_) => None
  }

  /**
   * Adding one mapping entry. A dict-valued entry is built into a message
   * named by its key; any failure while building or adding it is re-raised
   * annotated with the key. A message-valued entry is added as it is.
   */
  function AddEntry(s: seq<Message>, key: string, entry: Entry, ctor: Constructor): (r: Result<seq<Message>, Error>)
    ensures r.Success? <==> EntryMessage(key, entry, ctor).Some? && Added(s, EntryMessage(key, entry, ctor).value).Success?
    ensures r.Success? ==> r.value == s + [EntryMessage(key, entry, ctor).value]
    ensures r.Success? && entry.Args? ==> r.value[|s|].name == key
    ensures entry.Ready? && r.Failure? ==> r.error == Added(s, entry.message).error
    ensures entry.Args? && ctor(entry.args).Failure? ==>
              r == Failure(InMessage(key, ConstructionFailed(ctor(entry.args).error)))
    ensures entry.Args? && r.Failure? ==> r.error.InMessage? && r.error.message == key
  {
    match entry
    case Ready(m) => Added(s, m)
    case Args(a) =>
      match ctor(a)
      case Failure(reason) => Failure(InMessage(key, ConstructionFailed(reason)))
      case Success(l) =>
        match Added(s, Message(key, l.id, l.unpack))
        case Failure(e) => Failure(InMessage(key, e))
        case Success(s') => Success(s')
  }

  /** Adding the entries of a mapping in iteration order, stopping at the first failure. */
  function Filled(s: seq<Message>, es: seq<(string, Entry)>, ctor: Constructor): Built
    decreases |es|
  {
    if es == [] then Built(s, Pass)
    else match AddEntry(s, es[0].0, es[0].1, ctor)
      case Failure(e) => Built(s, Fail(e))
      case Success(s') => Filled(s', es[1..], ctor)
  }

  /**
   * Filling from a mapping keeps uniqueness and adds, after `s`, the message of
   * each entry in order (a dict-valued one named by its key), up to the first
   * entry that fails, whose error is the one reported.
   */
  lemma {:induction false} FilledSpec(s: seq<Message>, es: seq<(string, Entry)>, ctor: Constructor)
    requires NoDuplicates(s)
    ensures var b := Filled(s, es, ctor);
      && NoDuplicates(b.items)
      && |s| <= |b.items| <= |s| + |es|
      && b.items[..|s|] == s
      && (forall i :: |s| <= i < |b.items| ==> EntryMessage(es[i - |s|].0, es[i - |s|].1, ctor) == Some(b.items[i]))
      && (b.outcome.Pass? <==> |b.items| == |s| + |es|)
      && (b.outcome.Fail? ==>
            AddEntry(b.items, es[|b.items| - |s|].0, es[|b.items| - |s|].1, ctor) == Failure(b.outcome.error))
    decreases |es|
  {
    if es != [] {
      match AddEntry(s, es[0].0, es[0].1, ctor)
      case Failure(e) =>
      case Success(s') =>
        FilledSpec(s', es[1..], ctor);
        var b := Filled(s', es[1..], ctor);
        assert b.items[..|s|] == s by {
          assert b.items[..|s'|][..|s|] == b.items[..|s|];
        }
        forall i | |s| <= i < |b.items|
          ensures EntryMessage(es[i - |s|].0, es[i - |s|].1, ctor) == Some(b.items[i])
        {
          if i > |s| {
            assert es[1..][i - |s'|] == es[i - |s|];
          }
        }
        if b.outcome.Fail? {
          assert es[1..][|b.items| - |s'|] == es[|b.items| - |s|];
        }
    }
  }

  /** A successful mapping fill holds one message per entry; a dict-valued entry's message is named by its key. */
  lemma MappingNamesFromKeys(es: seq<(string, Entry)>, ctor: Constructor)
    requires Filled([], es, ctor).outcome.Pass?
    ensures |Filled([], es, ctor).items| == |es|
    ensures forall i :: 0 <= i < |es| && es[i].1.Args? ==> Filled([], es, ctor).items[i].name == es[i].0
    ensures forall i :: 0 <= i < |es| && es[i].1.Ready? ==> Filled([], es, ctor).items[i] == es[i].1.message
  {
    FilledSpec([], es, ctor);
  }

  /** The new contents of a bus, and how the assignment ended, for the shapes that are not copied. */
  function Normalized(input: MessagesInput, ctor: Constructor): Built
    requires !input.FromUnique?
  {
    match input
    case FromList(ms) => Extended([], ms)
    case FromMapping(es) => Filled([], es, ctor)
    case FromNothing => Built([], Pass)
  }

  /** The entries of a mapping from each message's name to the message itself. */
  function ByNameMapping(ms: seq<Message>): (es: seq<(string, Entry)>)
    ensures |es| == |ms|
  {
    seq(|ms|, i requires 0 <= i < |ms| => (ms[i].name, Ready(ms[i])))
  }

  lemma {:induction false} ExtendedIsFilled(s: seq<Message>, ms: seq<Message>, ctor: Constructor)
    ensures Extended(s, ms) == Filled(s, ByNameMapping(ms), ctor)
    decreases |ms|
  {
    if ms != [] {
      assert ByNameMapping(ms)[1..] == ByNameMapping(ms[1..]);
      match Added(s, ms[0])
      case Failure(_) =>
      case Success(s') => ExtendedIsFilled(s', ms[1..], ctor);
    }
  }

  /** A list of messages and the name-keyed mapping of the same messages give the same bus contents and outcome. */
  lemma ListAndMappingAgree(ms: seq<Message>, ctor: Constructor)
    ensures Normalized(FromList(ms), ctor) == Normalized(FromMapping(ByNameMapping(ms)), ctor)
  {
    ExtendedIsFilled([], ms, ctor);
  }

  /** The result of `unpack`: each message whose decoder's result is truthy, keyed by name, later ones overriding. */
  function Decoded(ms: seq<Message>, frame: Frame): map<string, Fields>
    decreases |ms|
  {
    if ms == [] then map[]
    else
      var last := ms[|ms| - 1];
      var rest := Decoded(ms[..|ms| - 1], frame);
      if Truthy(last.unpack(frame)) then rest[last.name := last.unpack(frame).value] else rest
  }

  /** The keys of a decoding are exactly the names of the messages that matched the frame. */
  lemma {:induction false} DecodedKeys(ms: seq<Message>, frame: Frame, n: string)
    ensures n in Decoded(ms, frame) <==> exists i :: 0 <= i < |ms| && ms[i].name == n && Truthy(ms[i].unpack(frame))
    decreases |ms|
  {
    if ms != [] {
      var init := ms[..|ms| - 1];
      DecodedKeys(init, frame, n);
      if n in Decoded(init, frame) {
        var i :| 0 <= i < |init| && init[i].name == n && Truthy(init[i].unpack(frame));
        assert ms[i] == init[i];
      }
      if exists i :: 0 <= i < |ms| && ms[i].name == n && Truthy(ms[i].unpack(frame)) {
        var i :| 0 <= i < |ms| && ms[i].name == n && Truthy(ms[i].unpack(frame));
        if i < |init| { assert init[i] == ms[i]; }
      }
    }
  }

  /** With names unique, each matching message is mapped to exactly its decoder's result. */
  lemma {:induction false} DecodedValues(ms: seq<Message>, frame: Frame, i: nat)
    requires NoDuplicates(ms)
    requires i < |ms| && Truthy(ms[i].unpack(frame))
    ensures ms[i].name in Decoded(ms, frame)
    ensures Decoded(ms, frame)[ms[i].name] == ms[i].unpack(frame).value
    decreases |ms|
  {
    var init := ms[..|ms| - 1];
    if i < |init| {
      assert NoDuplicates(init);
      assert init[i] == ms[i];
      DecodedValues(init, frame, i);
      assert ms[|ms| - 1].name != ms[i].name;
    }
  }

  /** The loop of `unpack`: probe every message in order and keep the truthy results by name. */
  method DecodeAll(ms: seq<Message>, frame: Frame) returns (ret: map<string, Fields>)
    ensures ret == Decoded(ms, frame)
  {
    ret := map[];
    var k := 0;
    while k < |ms|
      invariant 0 <= k <= |ms|
      invariant ret == Decoded(ms[..k], frame)
    {
      assert ms[..k + 1][..k] == ms[..k];
      var potential := ms[k].unpack(frame);
      if Truthy(potential) {
        ret := ret[ms[k].name := potential.value];
      }
      k := k + 1;
    }
    assert ms[..|ms|] == ms;
  }

  /** `interested`: the message's name or its id is among the interests. */
  predicate Interested(interests: seq<Interest>, m: Message)
    ensures Interested(interests, m) <==>
              (exists i :: 0 <= i < |interests| && interests[i].NameInterest? && interests[i].name == m.name)
              || (exists i :: 0 <= i < |interests| && interests[i].IdInterest? && interests[i].id == m.id)
  {
    NameInterest(m.name) in interests || IdInterest(m.id) in interests
  }

  /** The messages of `s` a filtered view selects, in their order in `s`. */
  function Filter(s: seq<Message>, interests: seq<Interest>): seq<Message>
    decreases |s|
  {
    if s == [] then []
    else (if Interested(interests, s[0]) then [s[0]] else []) + Filter(s[1..], interests)
  }

  /** A message is selected exactly when it is held and interesting. */
  lemma {:induction false} FilterMembers(s: seq<Message>, interests: seq<Interest>)
    ensures forall i :: 0 <= i < |Filter(s, interests)| ==>
              Filter(s, interests)[i] in s && Interested(interests, Filter(s, interests)[i])
    ensures forall i :: 0 <= i < |s| && Interested(interests, s[i]) ==> s[i] in Filter(s, interests)
    decreases |s|
  {
    if s != [] {
      FilterMembers(s[1..], interests);
      forall i | 0 <= i < |s[1..]| ensures s[1..][i] == s[i + 1] {}
    }
  }

  /** Filtering preserves order: it distributes over concatenation. */
  lemma {:induction false} FilterAppend(a: seq<Message>, b: seq<Message>, interests: seq<Interest>)
    ensures Filter(a + b, interests) == Filter(a, interests) + Filter(b, interests)
    decreases |a|
  {
    if a == [] {
      assert a + b == b;
    } else {
      assert (a + b)[0] == a[0] && (a + b)[1..] == a[1..] + b;
      FilterAppend(a[1..], b, interests);
    }
  }

  /** A view of a unique collection is itself unique, so `DecodedValues` applies to a view's decoding. */
  lemma {:induction false} FilterUnique(s: seq<Message>, interests: seq<Interest>)
    requires NoDuplicates(s)
    ensures NoDuplicates(Filter(s, interests))
    decreases |s|
  {
    if s != [] {
      var rest := s[1..];
      assert NoDuplicates(rest) by {
        forall i, j | 0 <= i < j < |rest| ensures rest[i].name != rest[j].name && rest[i].id != rest[j].id {
          assert rest[i] == s[i + 1] && rest[j] == s[j + 1];
        }
      }
      FilterUnique(rest, interests);
      FilterMembers(rest, interests);
      var f := Filter(rest, interests);
      forall i | 0 <= i < |f| ensures f[i].name != s[0].name && f[i].id != s[0].id {
        var j :| 0 <= j < |rest| && rest[j] == f[i];
        assert rest[j] == s[j + 1];
      }
    }
  }

  /** A filtered view decodes exactly the interesting messages that match the frame. */
  lemma FilteredDecodeKeys(s: seq<Message>, interests: seq<Interest>, frame: Frame, n: string)
    ensures n in Decoded(Filter(s, interests), frame) <==>
              exists i :: 0 <= i < |s| && s[i].name == n && Interested(interests, s[i]) && Truthy(s[i].unpack(frame))
  {
    var f := Filter(s, interests);
    DecodedKeys(f, frame, n);
    FilterMembers(s, interests);
    if n in Decoded(f, frame) {
      var j :| 0 <= j < |f| && f[j].name == n && Truthy(f[j].unpack(frame));
      var i :| 0 <= i < |s| && s[i] == f[j];
    }
    if exists i :: 0 <= i < |s| && s[i].name == n && Interested(interests, s[i]) && Truthy(s[i].unpack(frame)) {
      var i :| 0 <= i < |s| && s[i].name == n && Interested(interests, s[i]) && Truthy(s[i].unpack(frame));
      var j :| 0 <= j < |f| && f[j] == s[i];
    }
  }

  /** Whether one interest names a message held in `items`: an int by id, a str by name. */
  function Problem(items: seq<Message>, x: Interest): (p: Option<InterestProblem>)
    ensures p == Some(WrongType) <==> x.OtherInterest?
    ensures x.IdInterest? ==> (p.None? <==> exists i :: 0 <= i < |items| && items[i].id == x.id)
    ensures x.NameInterest? ==> (p.None? <==> exists i :: 0 <= i < |items| && items[i].name == x.name)
  {
    match x
    case IdInterest(id) => if Find(items, Id(id)).Some? then None else Some(Missing)
    case NameInterest(n) => if Find(items, Name(n)).Some? then None else Some(Missing)
    case OtherInterest(_) => Some(WrongType)
  }

  /** The check of the `interests` setter: the first interest that does not resolve is reported. */
  function InterestsCheck(bus: string, items: seq<Message>, interests: seq<Interest>): Outcome<Error>
    decreases |interests|
  {
    if interests == [] then Pass
    else match Problem(items, interests[0])
      case Some(p) => Fail(InvalidInterest(bus, interests[0], p))
      case None => InterestsCheck(bus, items, interests[1..])
  }

  /**
   * The interests are accepted exactly when each resolves; otherwise the error
   * names the bus and the first interest that does not, and says why.
   */
  lemma {:induction false} InterestsCheckSpec(bus: string, items: seq<Message>, interests: seq<Interest>)
    ensures InterestsCheck(bus, items, interests).Pass? <==>
              forall i :: 0 <= i < |interests| ==> Problem(items, interests[i]).None?
    ensures InterestsCheck(bus, items, interests).Fail? ==>
              exists k :: 0 <= k < |interests|
                && (forall i :: 0 <= i < k ==> Problem(items, interests[i]).None?)
                && Problem(items, interests[k]).Some?
                && InterestsCheck(bus, items, interests).error
                   == InvalidInterest(bus, interests[k], Problem(items, interests[k]).value)
    decreases |interests|
  {
    if interests != [] && Problem(items, interests[0]).None? {
      var rest := interests[1..];
      InterestsCheckSpec(bus, items, rest);
      if InterestsCheck(bus, items, rest).Fail? {
        var k :| 0 <= k < |rest|
                && (forall i :: 0 <= i < k ==> Problem(items, rest[i]).None?)
                && Problem(items, rest[k]).Some?
                && InterestsCheck(bus, items, rest).error == InvalidInterest(bus, rest[k], Problem(items, rest[k]).value);
        assert rest[k] == interests[k + 1];
        forall i | 0 <= i < k + 1 ensures Problem(items, interests[i]).None? {
          if i > 0 { assert interests[i] == rest[i - 1]; }
        }
      }
      forall i | 0 <= i < |rest| ensures rest[i] == interests[i + 1] {}
    }
  }

  /** The loop of the `interests` setter, looking each interest up in the bus's collection. */
  method CheckInterests(bus: Bus, interests: seq<Interest>) returns (o: Outcome<Error>)
    ensures o == InterestsCheck(bus.name, bus.messages.items, interests)
  {
    var k := 0;
    while k < |interests|
      invariant 0 <= k <= |interests|
      invariant InterestsCheck(bus.name, bus.messages.items, interests)
                == InterestsCheck(bus.name, bus.messages.items, interests[k..])
    {
      assert interests[k..][0] == interests[k] && interests[k..][1..] == interests[k + 1..];
      var interest := interests[k];
      match interest {
      case IdInterest(id) =>
        if bus.messages.ById(id).Failure? {
          return Fail(InvalidInterest(bus.ToString(), interest, Missing));
        }
      case NameInterest(n) =>
        if bus.messages.ByName(n).Failure? {
          return Fail(InvalidInterest(bus.ToString(), interest, Missing));
        }
      case OtherInterest(_) =>
        return Fail(InvalidInterest(bus.ToString(), interest, WrongType));
      }
      k := k + 1;
    }
    o := Pass;
  }

  /**
   * A view of a bus narrowed to the messages named by a list of interests.
   * It owns no messages: its `messages` is recomputed from the wrapped bus on
   * every access, and its name and baudrate are the wrapped bus's.
   */
  class BusFiltered {
    const bus: Bus
    var interests: seq<Interest>

    /** The stores of `__init__`, reached only once the `interests` setter has accepted the interests. */
    constructor Init(bus: Bus, interests: seq<Interest>)
      requires InterestsCheck(bus.name, bus.messages.items, interests).Pass?
      ensures this.bus == bus && this.interests == interests
    {
      this.bus := bus;
      this.interests := interests;
    }

    /** A filtered view, built only if every interest resolves against the bus as it is now. */
    static method Create(bus: Bus, interests: seq<Interest>) returns (r: Result<BusFiltered, Error>)
      ensures r.Success? <==> InterestsCheck(bus.name, bus.messages.items, interests).Pass?
      ensures r.Failure? ==> InterestsCheck(bus.name, bus.messages.items, interests) == Fail(r.error)
      ensures r.Success? ==> fresh(r.value) && r.value.bus == bus && r.value.interests == interests
    {
      var o := CheckInterests(bus, interests);
      if o.Fail? {
        return Failure(o.error);
      }
      var f := new BusFiltered.Init(bus, interests);
      return Success(f);
    }

    /** The `interests` setter: all interests are checked before any is stored. */
    method SetInterests(interests: seq<Interest>) returns (o: Outcome<Error>)
      modifies this
      ensures o == InterestsCheck(bus.name, bus.messages.items, interests)
      ensures this.interests == if o.Pass? then interests else old(this.interests)
    {
      o := CheckInterests(bus, interests);
      if o.Pass? {
        this.interests := interests;
      }
    }

    /** The filtered `messages`: the wrapped bus's interesting messages, in the bus's order. */
    function Messages(): (r: seq<Message>)
      reads this, bus, bus.messages
      ensures forall i :: 0 <= i < |r| ==> r[i] in bus.messages.items && Interested(interests, r[i])
      ensures forall i :: 0 <= i < |bus.messages.items| && Interested(interests, bus.messages.items[i]) ==>
                bus.messages.items[i] in r
      ensures |r| <= |bus.messages.items|
    {
      FilterMembers(bus.messages.items, interests);
      FilterLength(bus.messages.items, interests);
      Filter(bus.messages.items, interests)
    }

    /** The inherited `unpack`, decoding over the filtered `messages`. */
    method Unpack(frame: Frame) returns (ret: map<string, Fields>)
      ensures ret == Decoded(Filter(bus.messages.items, interests), frame)
    {
      ret := DecodeAll(Messages(), frame);
    }

    /** `str` of a view reaches the wrapped bus's name through attribute forwarding. */
    function ToString(): (s: string)
      reads this, bus
      ensures s == bus.name
    {
      bus.ToString()
    }

    /** `baudrate` is forwarded to the wrapped bus. */
    function Baudrate(): (b: int)
      reads this, bus
      ensures b == bus.baudrate
    {
      bus.baudrate
    }

    /** `extended` as written: looked up on the Bus class, where its default False is found, so never forwarded. */
    function Extended(): (e: bool)
      ensures !e
    {
      false
    }

    /** `extended` as evidently intended: forwarded to the wrapped bus like `name` and `baudrate`. */
    function ForwardedExtended(): (e: bool)
      reads this, bus
      ensures e == bus.extended
    {
      bus.extended
    }
  }

  lemma {:induction false} FilterLength(s: seq<Message>, interests: seq<Interest>)
    ensures |Filter(s, interests)| <= |s|
    decreases |s|
  {
    if s != [] {
      FilterLength(s[1..], interests);
    }
  }

  /** On a view of a bus whose `extended` is true, the as-written lookup disagrees with the bus. */
  lemma ExtendedNotForwarded(f: BusFiltered)
    requires f.bus.extended
    ensures f.Extended() != f.bus.extended
    ensures f.ForwardedExtended() == f.bus.extended
  {
  }

  /** A bus with messages x, y, z of ids 1, 2, 3: the view on [1, "z"] shows x and z in order; 99 and 4.5 are rejected. */
  lemma FilteredViewExample(dx: Frame -> Option<Fields>, dy: Frame -> Option<Fields>, dz: Frame -> Option<Fields>)
    ensures var s := [Message("x", 1, dx), Message("y", 2, dy), Message("z", 3, dz)];
      && InterestsCheck("can0", s, [IdInterest(1), NameInterest("z")]) == Pass
      && Filter(s, [IdInterest(1), NameInterest("z")]) == [s[0], s[2]]
      && InterestsCheck("can0", s, [IdInterest(99)]) == Fail(InvalidInterest("can0", IdInterest(99), Missing))
      && InterestsCheck("can0", s, [OtherInterest("4.5")]) == Fail(InvalidInterest("can0", OtherInterest("4.5"), WrongType))
  {
    var s := [Message("x", 1, dx), Message("y", 2, dy), Message("z", 3, dz)];
    assert Find(s, Id(1)) == Some(0);
    assert Find(s, Name("z")).Some? by { assert HasKey(s[2], Name("z")); }
    assert Find(s, Id(99)).None?;
    var I := [IdInterest(1), NameInterest("z")];
    assert s[1..] == [s[1], s[2]] && s[1..][1..] == [s[2]] && [s[2]][1..] == [];
    assert Filter([s[2]], I) == [s[2]];
    assert !Interested(I, s[1]);
    assert Filter([s[1], s[2]], I) == [s[2]];
  }

  /** Of three messages only B matches the frame, so `unpack` gives exactly B's fields under its name. */
  lemma FanOutExample(a: Message, b: Message, c: Message, frame: Frame)
    requires a.name == "A" && b.name == "B" && c.name == "C"
    requires !Truthy(a.unpack(frame)) && Truthy(b.unpack(frame)) && !Truthy(c.unpack(frame))
    ensures Decoded([a, b, c], frame) == map["B" := b.unpack(frame).value]
  {
    assert [a, b, c][..2] == [a, b];
    assert [a, b][..1] == [a];
    assert [a][..0] == [];
    assert Decoded([a], frame) == map[];
    assert Decoded([a, b], frame) == map["B" := b.unpack(frame).value];
  }

  /** A bus specification. */
  class Bus {
    var name: string
    var baudrate: int
    var extended: bool
    var messages: Unique

    ghost predicate Valid()
      reads this, messages
    {
      messages.Valid()
    }

    /** The field stores of the generated initialiser, before `messages` is assigned. */
    constructor Init(name: string, baudrate: int, extended: bool)
      ensures Valid() && fresh(messages) && messages.items == []
      ensures this.name == name && this.baudrate == baudrate && this.extended == extended
    {
      this.name := name;
      this.baudrate := baudrate;
      this.extended := extended;
      messages := new Unique();
    }

    /**
     * A bus built from a specification; every failure while assigning its
     * messages escapes, so no bus is returned then.
     */
    static method Create(name: string, baudrate: int, extended: bool, input: MessagesInput, ctor: Constructor)
      returns (r: Result<Bus, Error>)
      requires input.FromUnique? ==> input.source.Valid()
      ensures r.Success? ==> fresh(r.value) && fresh(r.value.messages) && r.value.Valid()
      ensures r.Success? ==> r.value.name == name && r.value.baudrate == baudrate && r.value.extended == extended
      ensures input.FromUnique? ==> r.Success? && r.value.messages.items == input.source.items
      ensures !input.FromUnique? ==> (r.Success? <==> Normalized(input, ctor).outcome.Pass?)
      ensures !input.FromUnique? && r.Success? ==> r.value.messages.items == Normalized(input, ctor).items
      ensures !input.FromUnique? && r.Failure? ==> Normalized(input, ctor).outcome == Fail(r.error)
    {
      var b := new Bus.Init(name, baudrate, extended);
      var o := b.SetMessages(input, ctor);
      if o.Fail? {
        return Failure(o.error);
      }
      return Success(b);
    }

    /**
     * The `messages` setter. A unique collection is copied; otherwise a fresh
     * collection is installed first and then filled from the list or the
     * mapping, so after a failure the bus holds what was added before it.
     */
    method SetMessages(input: MessagesInput, ctor: Constructor) returns (o: Outcome<Error>)
      requires input.FromUnique? ==> input.source.Valid()
      modifies this
      ensures Valid() && fresh(messages)
      ensures name == old(name) && baudrate == old(baudrate) && extended == old(extended)
      ensures input.FromUnique? ==> o == Pass && messages.items == old(input.source.items)
      ensures !input.FromUnique? ==> Built(messages.items, o) == Normalized(input, ctor)
    {
      if input.FromUnique? {
        messages := input.source.Copy();
        return Pass;
      }
      messages := new Unique();
      match input
      case FromList(ms) =>
        o := messages.Extend(ms);
      case FromNothing =>
        o := Pass;
      case FromMapping(es) =>
        var k := 0;
        while k < |es|
          invariant 0 <= k <= |es|
          invariant fresh(messages) && Valid()
          invariant name == old(name) && baudrate == old(baudrate) && extended == old(extended)
          invariant Filled([], es, ctor) == Filled(messages.items, es[k..], ctor)
        {
          assert es[k..][0] == es[k] && es[k..][1..] == es[k + 1..];
          var (key, entry) := es[k];
          match entry {
            case Args(a) =>
              var built := ctor(a);
              if built.Failure? {
                return Fail(InMessage(key, ConstructionFailed(built.error)));
              }
              var added := messages.Add(Message(key, built.value.id, built.value.unpack));
              if added.Fail? {
                return Fail(InMessage(key, added.error));
              }
            case Ready(m) =>
              o := messages.Add(m);
              if o.Fail? {
                return;
              }
          }
          k := k + 1;
        }
        o := Pass;
    }

    /** `unpack`: the decoding of `frame` by every message of the bus. */
    method Unpack(frame: Frame) returns (ret: map<string, Fields>)
      ensures ret == Decoded(messages.items, frame)
    {
      ret := DecodeAll(messages.items, frame);
    }

    /** `str(bus)` is the bus's name. */
    function ToString(): (s: string)
      reads this
      ensures s == name
    {
      name
    }
  }

  /** Assignment copies: later adds to the assigned collection and to the bus's own collection do not reach each other. */
  method AssignmentIsolation(b: Bus, u: Unique, m1: Message, m2: Message, ctor: Constructor)
    requires u.Valid() && b.Valid()
    modifies b, u
    ensures b.messages.items == old(u.items) + (if Added(old(u.items), m1).Success? then [m1] else [])
    ensures u.items == old(u.items) + (if Added(old(u.items), m2).Success? then [m2] else [])
  {
    var _ := b.SetMessages(FromUnique(u), ctor);
    var _ := b.messages.Add(m1);
    var _ := u.Add(m2);
  }
}
