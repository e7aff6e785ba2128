/**
 * The `WithAttributes` mixin: a class-level ordered list of declared
 * attributes, a class-level translation table from local attribute names to
 * remote (Zoho) field names, the two key translations, and mass assignment of
 * attribute values on an instance.
 *
 * Ruby's generated accessors are replaced by an explicit map from declared
 * attribute name to value; an instance "has a setter" for exactly the
 * declared attributes of its class.
 */
module WithAttributes {
  import opened Wrappers
  import opened Assoc
  import Naming

  /** Attribute names and remote keys (Ruby symbols) as their text. */
  type Name = string

  /** The `attribute_translation` table: local attribute name to remote key. */
  type Translation = Hash<Name, Name>

  // ----- Key translation (pure) -----

  /** `attr_to_zoho_key`: the table's entry if there is one, else the default rule. */
  function AttrToZohoKey(t: Translation, attr: Name): Name
  {
    match Lookup(t, attr)
    case Some(key) => key
    case None => Naming.DefaultKey(attr)
  }

  /** `zoho_key_translation`: the table with every pair swapped. */
  function ZohoKeyTranslation(t: Translation): Hash<Name, Name>
  {
    Invert(t)
  }

  /** `zoho_key_to_attr`: the reverse entry if there is one, else the key itself. */
  function ZohoKeyToAttr(t: Translation, key: Name): Name
  {
    match Lookup(ZohoKeyTranslation(t), key)
    case Some(attr) => attr
    case None => key
  }

  /** An explicit entry takes precedence over the default rule. */
  lemma OverrideWins(t: Translation, i: nat)
    requires i < |t|
    ensures AttrToZohoKey(t, t[i].0) == t[i].1
  {
    LookupAt(t, i);
  }

  /** Without an entry the default rule applies. */
  lemma DefaultWithoutEntry(t: Translation, attr: Name)
    requires forall i :: 0 <= i < |t| ==> t[i].0 != attr
    ensures AttrToZohoKey(t, attr) == Naming.DefaultKey(attr)
  {
    InKeys(t, attr);
  }

  /**
   * Every remote key the forward translation produces is either written in
   * the table or already in default form (the default rule maps it to itself).
   */
  lemma RemoteKeyShape(t: Translation, attr: Name)
    ensures (exists i :: 0 <= i < |t| && t[i].1 == AttrToZohoKey(t, attr))
            || Naming.DefaultKey(AttrToZohoKey(t, attr)) == AttrToZohoKey(t, attr)
  {
    InKeys(t, attr);
    if Lookup(t, attr).Some? {
      var i :| 0 <= i < |t| && t[i].0 == attr;
      LookupAt(t, i);
    } else {
      Naming.DefaultKeyIdempotent(attr);
    }
  }

  /** A remote key that no table entry produces passes through unchanged. */
  lemma UnknownKeyPassesThrough(t: Translation, key: Name)
    requires forall i :: 0 <= i < |t| ==> t[i].1 != key
    ensures ZohoKeyToAttr(t, key) == key
  {
    InvertMissing(t, key);
  }

  /**
   * A remote key that some entry produces translates back to the local name
   * of the LAST such entry (`to_h` keeps the later of two equal keys).
   */
  lemma KnownKeyTranslatesBack(t: Translation, key: Name, i: nat)
    requires i < |t| && t[i].1 == key
    requires forall j :: i < j < |t| ==> t[j].1 != key
    ensures ZohoKeyToAttr(t, key) == t[i].0
  {
    InvertLast(t, key, i);
  }

  /** Round trip through an explicit entry of an injective table. */
  lemma RoundTripExplicit(t: Translation, attr: Name)
    requires Injective(t)
    requires attr in Keys(t)
    ensures ZohoKeyToAttr(t, AttrToZohoKey(t, attr)) == attr
  {
    InKeys(t, attr);
    var i :| 0 <= i < |t| && t[i].0 == attr;
    OverrideWins(t, i);
    InvertInjective(t, i);
  }

  /**
   * For a remote key in default form that the table neither mentions as a
   * local name nor produces, translating to a local name and back gives the key.
   */
  lemma RoundTripDefault(t: Translation, local: Name)
    requires forall i :: 0 <= i < |t| ==> t[i].0 != Naming.DefaultKey(local) && t[i].1 != Naming.DefaultKey(local)
    ensures AttrToZohoKey(t, ZohoKeyToAttr(t, Naming.DefaultKey(local))) == Naming.DefaultKey(local)
  {
    var key := Naming.DefaultKey(local);
    UnknownKeyPassesThrough(t, key);
    DefaultWithoutEntry(t, key);
    Naming.DefaultKeyIdempotent(local);
  }

  // ----- Class-level schema (imperative) -----

  /** The class-level state that `ClassMethods` keeps in `@attributes` and `@attribute_translation`. */
  class RecordClass {
    var attributes: seq<Name>
    var translation: Translation

    /** A class that has declared nothing yet (`@attributes ||= []`, `@attribute_translation ||= {}`). */
    constructor ()
      ensures attributes == [] && translation == []
    {
      attributes := [];
      translation := [];
    }

    /** `attributes(*names)`: appends the names in order and returns the whole list. */
    method Attributes(names: seq<Name>) returns (all: seq<Name>)
      modifies this
      ensures attributes == old(attributes) + names
      ensures translation == old(translation)
      ensures all == attributes
    {
      attributes := attributes + names;
      all := attributes;
    }

    /**
     * `attribute_translation(t = nil)`: with a table, replaces the whole table
     * (no merge); without one, leaves it as it is. Returns the current table.
     */
    method AttributeTranslation(t: Option<Translation>) returns (current: Translation)
      modifies this
      ensures translation == if t.Some? then t.value else old(translation)
      ensures attributes == old(attributes)
      ensures current == translation
    {
      if t.Some? {
        translation := t.value;
      }
      current := translation;
    }
  }

  // ----- Mass assignment -----

  /** The attribute values this model distinguishes. */
  datatype Value = Nil | Bool(b: bool) | Int(n: int) | Str(s: string)

  /** A key of a hash given to `assign_attributes`: a symbol or a string. */
  datatype HashKey = SymKey(name: string) | StrKey(name: string)
  {
    /** `key.to_s`. */
    function ToS(): Name
    {
      name
    }
  }

  /** The argument of `assign_attributes`: a hash, or any other object. */
  datatype AssignArg = HashArg(pairs: Hash<HashKey, Value>) | NotHash

  /** The `ArgumentError`s that `assign_attributes` raises. */
  datatype ArgumentError = NotAHashError | UnknownAttribute(key: Name)
  {
    function Message(): string
    {
      match this
      case NotAHashError => "When assigning attributes, you must pass a hash as an argument"
      case UnknownAttribute(k) => "Unknown attribute " + k
    }
  }

  /** `Hash[h.map { |k, v| [k.to_s, v] }]`: keys become strings; of two keys with equal text the later value wins. */
  function StringKeys(h: seq<(HashKey, Value)>): Hash<Name, Value>
  {
    FromPairs(seq(|h|, i requires 0 <= i < |h| => (h[i].0.ToS(), h[i].1)))
  }

  /**
   * `_assign_attributes` on hash pairs: assigns them in order and stops with
   * an error at the first key that is not declared; what was assigned before
   * stays assigned.
   */
  function AssignPairs(values: map<Name, Value>, declared: seq<Name>, ps: seq<(Name, Value)>)
    : (map<Name, Value>, Option<ArgumentError>)
    decreases |ps|
  {
    if ps == [] then (values, None)
    else if ps[0].0 in declared then AssignPairs(values[ps[0].0 := ps[0].1], declared, ps[1..])
    else (values, Some(UnknownAttribute(ps[0].0)))
  }

  /** `assign_attributes(arg)` as a function of the values before the call. */
  function AssignOutcome(values: map<Name, Value>, declared: seq<Name>, arg: AssignArg)
    : (map<Name, Value>, Option<ArgumentError>)
  {
    match arg
    case NotHash => (values, Some(NotAHashError))
    case HashArg(h) => if h == [] then (values, None) else AssignPairs(values, declared, StringKeys(h))
  }

  /** Assignment succeeds exactly when every key is declared. */
  lemma {:induction false} AssignPairsSucceedsIff(values: map<Name, Value>, declared: seq<Name>, ps: seq<(Name, Value)>)
    ensures AssignPairs(values, declared, ps).1.None? <==> forall i :: 0 <= i < |ps| ==> ps[i].0 in declared
    decreases |ps|
  {
    if ps != [] && ps[0].0 in declared {
      AssignPairsSucceedsIff(values[ps[0].0 := ps[0].1], declared, ps[1..]);
      assert forall i :: 1 <= i < |ps| ==> ps[i] == ps[1..][i - 1];
    }
  }

  /**
   * A failing assignment names the first undeclared key, and leaves the
   * values exactly as assigning the keys before it would.
   */
  lemma {:induction false} AssignPairsFailure(values: map<Name, Value>, declared: seq<Name>, ps: seq<(Name, Value)>, j: nat)
    requires j < |ps| && ps[j].0 !in declared
    requires forall i :: 0 <= i < j ==> ps[i].0 in declared
    ensures AssignPairs(values, declared, ps).1 == Some(UnknownAttribute(ps[j].0))
    ensures AssignPairs(values, declared, ps).0 == AssignPairs(values, declared, ps[..j]).0
    decreases j
  {
    if j > 0 {
      assert ps[1..][..j - 1] == ps[..j][1..];
      assert forall i :: 0 <= i < j - 1 ==> ps[1..][i] == ps[i + 1];
      AssignPairsFailure(values[ps[0].0 := ps[0].1], declared, ps[1..], j - 1);
    }
  }

  /**
   * A successful assignment of pairs with distinct keys stores every value
   * unchanged under its key and leaves every other attribute as it was.
   */
  lemma {:induction false} AssignPairsStores(values: map<Name, Value>, declared: seq<Name>, ps: Hash<Name, Value>)
    requires AssignPairs(values, declared, ps).1.None?
    ensures forall i :: 0 <= i < |ps| ==> Get(AssignPairs(values, declared, ps).0, ps[i].0) == ps[i].1
    ensures forall k :: k !in Keys(ps) ==> Get(AssignPairs(values, declared, ps).0, k) == Get(values, k)
    decreases |ps|
  {
    if ps != [] {
      var rest: Hash<Name, Value> := ps[1..];
      AssignPairsStores(values[ps[0].0 := ps[0].1], declared, rest);
      InKeys(rest, ps[0].0);
      assert forall i :: 1 <= i < |ps| ==> ps[i] == rest[i - 1];
    }
  }

  /** A failed assignment stops at an undeclared key, after only declared ones. */
  lemma {:induction false} AssignPairsErrorKey(values: map<Name, Value>, declared: seq<Name>, ps: seq<(Name, Value)>)
    requires AssignPairs(values, declared, ps).1.Some?
    ensures exists j :: 0 <= j < |ps| && ps[j].0 !in declared && (forall i :: 0 <= i < j ==> ps[i].0 in declared)
              && AssignPairs(values, declared, ps).1 == Some(UnknownAttribute(ps[j].0))
    decreases |ps|
  {
    if ps[0].0 in declared {
      AssignPairsErrorKey(values[ps[0].0 := ps[0].1], declared, ps[1..]);
      var j :| 0 <= j < |ps| - 1 && ps[1..][j].0 !in declared && (forall i :: 0 <= i < j ==> ps[1..][i].0 in declared)
               && AssignPairs(values[ps[0].0 := ps[0].1], declared, ps[1..]).1 == Some(UnknownAttribute(ps[1..][j].0));
      assert forall i :: 1 <= i < j + 1 ==> ps[i] == ps[1..][i - 1];
      assert ps[j + 1] == ps[1..][j];
    } else {
      assert ps[0].0 !in declared;
    }
  }

  /** The reader of an attribute: its value, or `nil` if never assigned. */
  function Get(values: map<Name, Value>, attr: Name): Value
  {
    if attr in values then values[attr] else Nil
  }

  /** An object that is not a hash raises, and nothing changes. */
  lemma AssignNotHash(values: map<Name, Value>, declared: seq<Name>)
    ensures AssignOutcome(values, declared, NotHash) == (values, Some(NotAHashError))
    ensures NotAHashError.Message() == "When assigning attributes, you must pass a hash as an argument"
  {
  }

  /** An empty hash assigns nothing. */
  lemma AssignEmpty(values: map<Name, Value>, declared: seq<Name>)
    ensures AssignOutcome(values, declared, HashArg([])) == (values, None)
  {
  }

  /** `assign_attributes` succeeds exactly when the text of every key is a declared attribute. */
  lemma AssignSucceedsIff(values: map<Name, Value>, declared: seq<Name>, h: Hash<HashKey, Value>)
    ensures AssignOutcome(values, declared, HashArg(h)).1.None? <==> forall i :: 0 <= i < |h| ==> h[i].0.ToS() in declared
  {
    if h != [] {
      var conv := seq(|h|, i requires 0 <= i < |h| => (h[i].0.ToS(), h[i].1));
      var ps := StringKeys(h);
      AssignPairsSucceedsIff(values, declared, ps);
      if AssignOutcome(values, declared, HashArg(h)).1.None? {
        forall i | 0 <= i < |h| ensures h[i].0.ToS() in declared {
          InKeys(conv, conv[i].0);
          InKeys(ps, conv[i].0);
        }
      } else {
        var j :| 0 <= j < |ps| && ps[j].0 !in declared;
        InKeys(ps, ps[j].0);
        InKeys(conv, ps[j].0);
      }
    }
  }

  /**
   * After a successful `assign_attributes`, each attribute holds, unchanged,
   * the value of the last hash entry whose key has its name (so `''` and
   * `false` are kept as they are); attributes the hash does not name keep
   * their values.
   */
  lemma AssignStores(values: map<Name, Value>, declared: seq<Name>, h: Hash<HashKey, Value>, i: nat)
    requires AssignOutcome(values, declared, HashArg(h)).1.None?
    requires i < |h|
    requires forall j :: i < j < |h| ==> h[j].0.ToS() != h[i].0.ToS()
    ensures Get(AssignOutcome(values, declared, HashArg(h)).0, h[i].0.ToS()) == h[i].1
  {
    var conv := seq(|h|, i requires 0 <= i < |h| => (h[i].0.ToS(), h[i].1));
    var ps := StringKeys(h);
    LookupFromPairs(conv, h[i].0.ToS(), i);
    LookupFound(ps, h[i].0.ToS());
    AssignPairsStores(values, declared, ps);
  }

  /** Attributes that no key of the hash names keep their values. */
  lemma AssignLeavesOthers(values: map<Name, Value>, declared: seq<Name>, h: Hash<HashKey, Value>, attr: Name)
    requires AssignOutcome(values, declared, HashArg(h)).1.None?
    requires forall i :: 0 <= i < |h| ==> h[i].0.ToS() != attr
    ensures Get(AssignOutcome(values, declared, HashArg(h)).0, attr) == Get(values, attr)
  {
    if h != [] {
      var conv := seq(|h|, i requires 0 <= i < |h| => (h[i].0.ToS(), h[i].1));
      InKeys(conv, attr);
      AssignPairsStores(values, declared, StringKeys(h));
    }
  }

  /**
   * A failed `assign_attributes` names an undeclared key of the hash and
   * leaves exactly the assignments of the keys before it in place.
   */
  lemma AssignFailure(values: map<Name, Value>, declared: seq<Name>, h: Hash<HashKey, Value>)
    requires AssignOutcome(values, declared, HashArg(h)).1.Some?
    ensures var (after, err) := AssignOutcome(values, declared, HashArg(h));
            exists j :: 0 <= j < |StringKeys(h)| && err == Some(UnknownAttribute(StringKeys(h)[j].0))
              && StringKeys(h)[j].0 !in declared
              && err.value.Message() == "Unknown attribute " + StringKeys(h)[j].0
              && after == AssignPairs(values, declared, StringKeys(h)[..j]).0
              && AssignPairs(values, declared, StringKeys(h)[..j]).1.None?
  {
    var ps := StringKeys(h);
    AssignPairsErrorKey(values, declared, ps);
    var j :| 0 <= j < |ps| && ps[j].0 !in declared && (forall i :: 0 <= i < j ==> ps[i].0 in declared)
             && AssignPairs(values, declared, ps).1 == Some(UnknownAttribute(ps[j].0));
    AssignPairsFailure(values, declared, ps, j);
    AssignPairsSucceedsIff(values, declared, ps[..j]);
  }

  /**
   * The record test's schema (`my_string`, `my_bool`, `id`): an empty string
   * and `false` are stored as they are, not as missing values.
   */
  lemma AssignKeepsEmptyAndFalse(values: map<Name, Value>)
    ensures var after := AssignOutcome(values, ["my_string", "my_bool", "id"],
                                       HashArg([(SymKey("my_string"), Str("")), (SymKey("my_bool"), Bool(false))]));
            after.1.None? && Get(after.0, "my_string") == Str("") && Get(after.0, "my_bool") == Bool(false)
  {
    var declared := ["my_string", "my_bool", "id"];
    var h: Hash<HashKey, Value> := [(SymKey("my_string"), Str("")), (SymKey("my_bool"), Bool(false))];
    assert h[0].0.ToS() == "my_string" && h[1].0.ToS() == "my_bool";
    AssignSucceedsIff(values, declared, h);
    AssignStores(values, declared, h, 0);
    AssignStores(values, declared, h, 1);
  }

  // ----- Instances -----

  /** An instance of a class that includes `WithAttributes`. */
  class Record {
    const cls: RecordClass
    var values: map<Name, Value>

    constructor (c: RecordClass)
      ensures cls == c && values == map[]
    {
      cls := c;
      values := map[];
    }

    /** The instance's `attributes`: the list declared on its class. */
    function Attributes(): seq<Name>
      reads cls
    {
      cls.attributes
    }

    /**
     * `assign_attributes(arg)`: raises `ArgumentError` (returned here as the
     * error) for a non-hash argument or an undeclared key; keys before an
     * undeclared one stay assigned.
     */
    method AssignAttributes(arg: AssignArg) returns (err: Option<ArgumentError>)
      modifies this
      ensures (values, err) == AssignOutcome(old(values), cls.attributes, arg)
    {
      if arg.NotHash? {
        return Some(NotAHashError);
      }
      if arg.pairs == [] {
        return None;
      }
      var ps := StringKeys(arg.pairs);
      var declared := cls.attributes;
      var i := 0;
      while i < |ps|
        invariant 0 <= i <= |ps|
        invariant AssignPairs(values, declared, ps[i..]) == AssignPairs(old(values), declared, ps)
      {
        assert ps[i..][1..] == ps[i + 1..];
        var (k, v) := ps[i];
        if k !in declared {
          return Some(UnknownAttribute(k));
        }
        values := values[k := v];
        i := i + 1;
      }
      err := None;
    }
  }
}
