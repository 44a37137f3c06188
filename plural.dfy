/**
 * The unique collection of message definitions (plural.Unique('name', 'id')):
 * an insertion-ordered sequence of messages in which no two share a name and
 * no two share an id.
 */
module Plural {
  import opened Wrappers
  import opened Messages

  /** Uniqueness on both declared keys. */
  ghost predicate NoDuplicates(s: seq<Message>) {
    forall i, j :: 0 <= i < j < |s| ==> s[i].name != s[j].name && s[i].id != s[j].id
  }

  /** The position of a message of `s` that has key `k`, if there is one. */
  function Find(s: seq<Message>, k: Key): (r: Option<nat>)
    ensures r.Some? ==> r.value < |s| && HasKey(s[r.value], k)
    ensures r.None? <==> forall i :: 0 <= i < |s| ==> !HasKey(s[i], k)
  {
    if s == [] then None
    else if HasKey(s[0], k) then Some(0)
    else match Find(s[1..], k)
      case None => None
      case Some(i) => Some(i + 1)
  }

  /** The sequence after adding `m` to `s`, or the key that collides (name checked before id). */
  function Added(s: seq<Message>, m: Message): (r: Result<seq<Message>, Error>)
    ensures r.Success? <==> forall i :: 0 <= i < |s| ==> s[i].name != m.name && s[i].id != m.id
    ensures r.Success? ==> r.value == s + [m]
    ensures r.Success? && NoDuplicates(s) ==> NoDuplicates(r.value)
    ensures r.Failure? ==> r.error.DuplicateKey? && HasKey(m, r.error.key)
    ensures r.Failure? ==> exists i :: 0 <= i < |s| && HasKey(s[i], r.error.key)
  {
    if Find(s, Name(m.name)).Some? then Failure(DuplicateKey(Name(m.name)))
    else if Find(s, Id(m.id)).Some? then Failure(DuplicateKey(Id(m.id)))
    else Success(s + [m])
  }

  /** The contents of a collection after a sequence of adds, and how the adds ended. */
  datatype Built = Built(items: seq<Message>, outcome: Outcome<Error>)

  /** `extend`: add each message in order, stopping at the first collision. */
  function Extended(s: seq<Message>, ms: seq<Message>): Built
    decreases |ms|
  {
    if ms == [] then Built(s, Pass)
    else match Added(s, ms[0])
      case Failure(e) => Built(s, Fail(e))
      case Success(s') => Extended(s', ms[1..])
  }

  /**
   * Extending a unique sequence keeps it unique; it succeeds exactly when the
   * concatenation is unique, and then holds the concatenation; otherwise it
   * holds a prefix of the extension (made precise by ExtendedFailure).
   */
  lemma {:induction false} ExtendedSpec(s: seq<Message>, ms: seq<Message>)
    requires NoDuplicates(s)
    ensures NoDuplicates(Extended(s, ms).items)
    ensures Extended(s, ms).outcome.Pass? <==> NoDuplicates(s + ms)
    ensures Extended(s, ms).outcome.Pass? ==> Extended(s, ms).items == s + ms
    ensures exists k :: 0 <= k <= |ms| && Extended(s, ms).items == s + ms[..k]
    decreases |ms|
  {
    if ms == [] {
      assert s + ms[..0] == s;
      assert s + ms == s;
    } else {
      match Added(s, ms[0])
      case Failure(e) =>
        assert s + ms[..0] == s;
        var i :| 0 <= i < |s| && HasKey(s[i], e.key);
        assert (s + ms)[|s|] == ms[0];
        assert (s + ms)[i] == s[i];
      case Success(s') =>
        ExtendedSpec(s', ms[1..]);
        assert s' + ms[1..] == s + ms;
        var k :| 0 <= k <= |ms[1..]| && Extended(s', ms[1..]).items == s' + ms[1..][..k];
        assert s' + ms[1..][..k] == s + ms[..k + 1];
    }
  }

  /** A failed extend holds `s` and the messages added before the colliding one, whose collision is the error reported. */
  lemma {:induction false} ExtendedFailure(s: seq<Message>, ms: seq<Message>)
    requires Extended(s, ms).outcome.Fail?
    ensures |s| <= |Extended(s, ms).items| < |s| + |ms|
    ensures Extended(s, ms).items == s + ms[..|Extended(s, ms).items| - |s|]
    ensures Added(Extended(s, ms).items, ms[|Extended(s, ms).items| - |s|]) == Failure(Extended(s, ms).outcome.error)
    decreases |ms|
  {
    match Added(s, ms[0])
    case Failure(e) =>
      assert ms[..0] == [];
    case Success(s') =>
      ExtendedFailure(s', ms[1..]);
      var b := Extended(s', ms[1..]);
      var k := |b.items| - |s'|;
      assert ms[1..][k] == ms[k + 1];
      assert s' + ms[1..][..k] == s + ms[..k + 1];
  }

  /** A mutable collection of messages unique on name and id. */
  class Unique {
    var items: seq<Message>

    ghost predicate Valid()
      reads this
    {
      NoDuplicates(items)
    }

    /** plural.Unique('name', 'id'): an empty collection. */
    constructor ()
      ensures Valid() && items == []
    {
      items := [];
    }

    /** Append `m`, or fail on a name or id already held, leaving the collection as it was. */
    method Add(m: Message) returns (o: Outcome<Error>)
      requires Valid()
      modifies this
      ensures Valid()
      ensures Added(old(items), m).Success? ==> o == Pass && items == old(items) + [m]
      ensures Added(old(items), m).Failure? ==> o == Fail(Added(old(items), m).error) && items == old(items)
    {
      var r := Added(items, m);
      match r
      case Success(s) =>
        items := s;
        o := Pass;
      case Failure(e) =>
        o := Fail(e);
    }

    /** Add each message of `ms` in order; the first collision stops it. */
    method Extend(ms: seq<Message>) returns (o: Outcome<Error>)
      requires Valid()
      modifies this
      ensures Valid()
      ensures Built(items, o) == Extended(old(items), ms)
    {
      var k := 0;
      while k < |ms|
        invariant 0 <= k <= |ms|
        invariant Valid()
        invariant Extended(old(items), ms) == Extended(items, ms[k..])
      {
        assert ms[k..][0] == ms[k] && ms[k..][1..] == ms[k + 1..];
        o := Add(ms[k]);
        if o.Fail? {
          return;
        }
        k := k + 1;
      }
      o := Pass;
    }

    /** A new collection with its own storage and the same contents. */
    method Copy() returns (c: Unique)
      requires Valid()
      ensures fresh(c) && c.Valid() && c.items == items
    {
      c := new Unique();
      c.items := items;
    }

    /** Lookup by name: the message with that name, or a not-found error. */
    function ByName(n: string): (r: Result<Message, Error>)
      reads this
      ensures r.Success? <==> exists i :: 0 <= i < |items| && items[i].name == n
      ensures r.Success? ==> r.value in items && r.value.name == n
      ensures r.Failure? ==> r.error == KeyNotFound(Name(n))
    {
      match Find(items, Name(n))
      case Some(i) => Success(items[i])
      case None => Failure(KeyNotFound(Name(n)))
    }

    /** Lookup by id: the message with that id, or a not-found error. */
    function ById(id: int): (r: Result<Message, Error>)
      reads this
      ensures r.Success? <==> exists i :: 0 <= i < |items| && items[i].id == id
      ensures r.Success? ==> r.value in items && r.value.id == id
      ensures r.Failure? ==> r.error == KeyNotFound(Id(id))
    {
      match Find(items, Id(id))
      case Some(i) => Success(items[i])
      case None => Failure(KeyNotFound(Id(id)))
    }
  }

  /** In a unique collection a key picks out one message: looking up a held message's name or id gives it back. */
  lemma {:induction false} LookupIsUnique(u: Unique, i: nat)
    requires u.Valid() && i < |u.items|
    ensures u.ByName(u.items[i].name) == Success(u.items[i])
    ensures u.ById(u.items[i].id) == Success(u.items[i])
  {
  }
}
