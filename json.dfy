/**
 * The part of `json.dumps(obj, sort_keys=True)` that content hashing uses:
 * ints, strings, floats, lists and dicts, with every dict's keys written in
 * sorted order, and a `TypeError` for any other object.
 */
module Json {
  import opened Wrappers
  import opened Text

  /** A Python value as `json.dumps` sees it. A dict keeps its insertion order. */
  datatype Value =
    | Int(n: int)
    | Str(s: string)
    | Float(text: string)                   // rendered as given; float formatting is not modelled
    | List(items: seq<Value>)
    | Dict(fields: seq<(string, Value)>)
    | Instance(className: string)           // an object of a class `json` has no encoder for

  /** No key occurs twice, as in every Python dict. */
  predicate DistinctKeys<V>(fields: seq<(string, V)>) {
    forall i, j :: 0 <= i < j < |fields| ==> fields[i].0 != fields[j].0
  }

  /** The value stored under `key`, if any. */
  function Lookup<V>(fields: seq<(string, V)>, key: string): Option<V>
  {
    if fields == [] then None
    else if fields[0].0 == key then Some(fields[0].1)
    else Lookup(fields[1..], key)
  }

  /** In a dict with distinct keys, looking up the key at position `i` finds the value there. */
  lemma {:induction false} LookupAt<V>(fields: seq<(string, V)>, i: nat)
    requires DistinctKeys(fields) && i < |fields|
    ensures Lookup(fields, fields[i].0) == Some(fields[i].1)
  {
    if i > 0 {
      assert fields[0].0 != fields[i].0;
      assert DistinctKeys(fields[1..]);
      LookupAt(fields[1..], i - 1);
    }
  }

  /** A value `json.dumps` can encode: no `Instance` anywhere inside it. */
  predicate IsPlain(v: Value)
    decreases v
  {
    match v
    case Instance(_) => false
    case List(items) => forall i :: 0 <= i < |items| ==> IsPlain(items[i])
    case Dict(fields) => forall i :: 0 <= i < |fields| ==> IsPlain(fields[i].1)
    case _ => true
  }

  // ----- Key order: Python compares strings code point by code point -----

  /** `a < b` on Python strings: lexicographic on code points, a proper prefix first. */
  predicate KeyLess(a: string, b: string)
    decreases |a|
  {
    if a == [] then b != []
    else if b == [] then false
    else if a[0] != b[0] then a[0] < b[0]
    else KeyLess(a[1..], b[1..])
  }

  lemma {:induction false} KeyLessIrreflexive(a: string)
    ensures !KeyLess(a, a)
    decreases |a|
  {
    if a != [] { KeyLessIrreflexive(a[1..]); }
  }

  lemma {:induction false} KeyLessTransitive(a: string, b: string, c: string)
    requires KeyLess(a, b) && KeyLess(b, c)
    ensures KeyLess(a, c)
    decreases |a|
  {
    if a != [] && a[0] == b[0] && b[0] == c[0] {
      KeyLessTransitive(a[1..], b[1..], c[1..]);
    }
  }

  lemma {:induction false} KeyLessTotal(a: string, b: string)
    requires a != b
    ensures KeyLess(a, b) || KeyLess(b, a)
    decreases |a|
  {
    if a != [] && b != [] && a[0] == b[0] {
      assert a == [a[0]] + a[1..] && b == [b[0]] + b[1..];
      KeyLessTotal(a[1..], b[1..]);
    }
  }

  /** Keys strictly ascending, which is what sorting a dict's items gives. */
  predicate SortedByKey<V>(fields: seq<(string, V)>) {
    forall i, j :: 0 <= i < j < |fields| ==> KeyLess(fields[i].0, fields[j].0)
  }

  /** Places `x` among the already sorted `s`. */
  function InsertByKey<V>(x: (string, V), s: seq<(string, V)>): seq<(string, V)> {
    if s == [] then [x]
    else if KeyLess(x.0, s[0].0) then [x] + s
    else [s[0]] + InsertByKey(x, s[1..])
  }

  /** Inserting adds exactly `x` to the items. */
  lemma {:induction false} InsertByKeyPermutes<V>(x: (string, V), s: seq<(string, V)>)
    ensures multiset(InsertByKey(x, s)) == multiset(s) + multiset{x}
  {
    if s != [] && !KeyLess(x.0, s[0].0) {
      assert s == [s[0]] + s[1..];
      InsertByKeyPermutes(x, s[1..]);
    }
  }

  /**
   * When the head of a sorted list stays in front, every item after it in
   * the result has a greater key.
   */
  lemma InsertByKeyAfterHead<V>(x: (string, V), s: seq<(string, V)>)
    requires SortedByKey(s) && s != [] && KeyLess(s[0].0, x.0)
    ensures forall y | y in InsertByKey(x, s[1..]) :: KeyLess(s[0].0, y.0)
  {
    InsertByKeyPermutes(x, s[1..]);
    forall y | y in InsertByKey(x, s[1..]) ensures KeyLess(s[0].0, y.0) {
      assert y in multiset(InsertByKey(x, s[1..]));
      if y != x {
        assert y in multiset(s[1..]);
        var k :| 0 <= k < |s[1..]| && s[1..][k] == y;
        assert s[k + 1] == y;
      }
    }
  }

  /** Inserting a new key into a sorted list keeps it sorted. */
  lemma {:induction false} InsertByKeySorted<V>(x: (string, V), s: seq<(string, V)>)
    requires SortedByKey(s)
    requires forall i :: 0 <= i < |s| ==> s[i].0 != x.0
    ensures SortedByKey(InsertByKey(x, s))
  {
    if s == [] {
    } else if KeyLess(x.0, s[0].0) {
      forall j | 0 < j < |s| ensures KeyLess(x.0, s[j].0) {
        KeyLessTransitive(x.0, s[0].0, s[j].0);
      }
    } else {
      var rest := InsertByKey(x, s[1..]);
      InsertByKeySorted(x, s[1..]);
      KeyLessTotal(x.0, s[0].0);
      InsertByKeyAfterHead(x, s);
      var r := [s[0]] + rest;
      forall i, j | 0 <= i < j < |r| ensures KeyLess(r[i].0, r[j].0) {
        if i == 0 { assert r[j] == rest[j - 1] && rest[j - 1] in rest; }
        else { assert r[i] == rest[i - 1] && r[j] == rest[j - 1]; }
      }
    }
  }

  /** `sorted(fields)` for a dict's items: insertion sort on the keys. */
  function SortByKey<V>(fields: seq<(string, V)>): seq<(string, V)> {
    if fields == [] then []
    else InsertByKey(fields[0], SortByKey(fields[1..]))
  }

  /** Sorting rearranges the items: it keeps each one exactly as often as it was given. */
  lemma {:induction false} SortByKeyPermutes<V>(fields: seq<(string, V)>)
    ensures multiset(SortByKey(fields)) == multiset(fields)
  {
    if fields != [] {
      assert fields == [fields[0]] + fields[1..];
      SortByKeyPermutes(fields[1..]);
      InsertByKeyPermutes(fields[0], SortByKey(fields[1..]));
    }
  }

  /** Sorting keeps exactly the items it was given. */
  lemma SortByKeyMembers<V>(fields: seq<(string, V)>)
    ensures forall i :: 0 <= i < |SortByKey(fields)| ==> SortByKey(fields)[i] in fields
    ensures forall i :: 0 <= i < |fields| ==> fields[i] in SortByKey(fields)
  {
    SortByKeyPermutes(fields);
    var r := SortByKey(fields);
    forall i | 0 <= i < |r| ensures r[i] in fields { assert r[i] in multiset(fields); }
    forall i | 0 <= i < |fields| ensures fields[i] in r { assert fields[i] in multiset(r); }
  }

  /** Sorting the items of a dict (all keys distinct) puts its keys in strictly ascending order. */
  lemma {:induction false} SortByKeySorted<V>(fields: seq<(string, V)>)
    requires DistinctKeys(fields)
    ensures SortedByKey(SortByKey(fields))
  {
    if fields != [] {
      var rest := SortByKey(fields[1..]);
      assert fields == [fields[0]] + fields[1..];
      SortByKeySorted(fields[1..]);
      SortByKeyPermutes(fields[1..]);
      forall i | 0 <= i < |rest| ensures rest[i].0 != fields[0].0 {
        assert rest[i] in multiset(fields[1..]);
        var k :| 0 <= k < |fields[1..]| && fields[1..][k] == rest[i];
        assert fields[k + 1] == rest[i];
      }
      InsertByKeySorted(fields[0], rest);
    }
  }

  /** Two strictly sorted lists holding the same items start with the same item. */
  lemma SortedSameHead<V>(a: seq<(string, V)>, b: seq<(string, V)>)
    requires SortedByKey(a) && SortedByKey(b) && a != []
    requires multiset(a) == multiset(b)
    ensures b != [] && a[0] == b[0]
  {
    assert a[0] in multiset(b);
    var k :| 0 <= k < |b| && b[k] == a[0];
    assert b[0] in multiset(a);
    var m :| 0 <= m < |a| && a[m] == b[0];
    if k > 0 && m > 0 {
      KeyLessTransitive(a[0].0, b[0].0, a[0].0);
      KeyLessIrreflexive(a[0].0);
      assert false;
    }
  }

  /** Two strictly sorted lists holding the same items are the same list. */
  lemma {:induction false} SortedUnique<V>(a: seq<(string, V)>, b: seq<(string, V)>)
    requires SortedByKey(a) && SortedByKey(b)
    requires multiset(a) == multiset(b)
    ensures a == b
    decreases |a|
  {
    if a != [] {
      SortedSameHead(a, b);
      assert a == [a[0]] + a[1..] && b == [b[0]] + b[1..];
      assert multiset(a[1..]) == multiset(a) - multiset{a[0]};
      assert multiset(b[1..]) == multiset(b) - multiset{b[0]};
      assert SortedByKey(a[1..]) && SortedByKey(b[1..]);
      SortedUnique(a[1..], b[1..]);
    }
  }

  /** A strictly sorted arrangement of a dict's items is the one sorting produces. */
  lemma SortByKeyIs<V>(fields: seq<(string, V)>, sorted: seq<(string, V)>)
    requires DistinctKeys(fields) && SortedByKey(sorted) && multiset(sorted) == multiset(fields)
    ensures SortByKey(fields) == sorted
  {
    SortByKeySorted(fields);
    SortByKeyPermutes(fields);
    SortedUnique(SortByKey(fields), sorted);
  }

  /** Sorting a dict's items depends only on which items it holds, not on their order. */
  lemma SortByKeyOrderIndependent<V>(f: seq<(string, V)>, g: seq<(string, V)>)
    requires DistinctKeys(f) && DistinctKeys(g) && multiset(f) == multiset(g)
    ensures SortByKey(f) == SortByKey(g)
  {
    SortByKeySorted(f);
    SortByKeySorted(g);
    SortByKeyPermutes(f);
    SortByKeyPermutes(g);
    SortedUnique(SortByKey(f), SortByKey(g));
  }

  // ----- Encoding -----

  /** A JSON string literal. Escaping of quotes, backslashes and non-ASCII is not modelled. */
  function Quote(s: string): string {
    "\"" + s + "\""
  }

  /** The parts separated by `", "`, json.dumps's default item separator. */
  function Join(parts: seq<string>): string {
    if parts == [] then ""
    else if |parts| == 1 then parts[0]
    else parts[0] + ", " + Join(parts[1..])
  }

  /** Joining more than one part writes the first, a separator, then the rest joined. */
  lemma JoinCons(first: string, rest: seq<string>)
    requires rest != []
    ensures Join([first] + rest) == first + ", " + Join(rest)
  {
    assert ([first] + rest)[1..] == rest;
  }

  /**
   * The text `json.dumps(v, sort_keys=True)` produces for a value it can
   * encode: `", "` between items, `": "` after keys, every dict's keys sorted.
   */
  function Dumps(v: Value): string
    requires IsPlain(v)
    decreases v
  {
    match v
    case Int(n) => Decimal(n)
    case Str(s) => Quote(s)
    case Float(t) => t
    case List(items) =>
      "[" + Join(seq(|items|, i requires 0 <= i < |items| => Dumps(items[i]))) + "]"
    case Dict(fields) =>
      SortByKeyMembers(fields);
      var sorted := SortByKey(fields);
      "{" + Join(seq(|sorted|, i requires 0 <= i < |sorted| => Quote(sorted[i].0) + ": " + Dumps(sorted[i].1))) + "}"
  }

  /** Five parts joined by the item separator. */
  lemma JoinFive(a: string, b: string, c: string, d: string, e: string)
    ensures Join([a, b, c, d, e]) == a + ", " + (b + ", " + (c + ", " + (d + ", " + e)))
  {
    JoinCons(d, [e]);
    assert [d, e] == [d] + [e];
    JoinCons(c, [d, e]);
    assert [c, d, e] == [c] + [d, e];
    JoinCons(b, [c, d, e]);
    assert [b, c, d, e] == [b] + [c, d, e];
    JoinCons(a, [b, c, d, e]);
    assert [a, b, c, d, e] == [a] + [b, c, d, e];
  }

  /** Regrouping the pieces of a three-item dict's text. */
  lemma FlattenThreeItems(k1: string, v1: string, k2: string, v2: string, k3: string, v3: string)
    ensures "{" + ((k1 + ": " + v1) + ", " + ((k2 + ": " + v2) + ", " + (k3 + ": " + v3))) + "}"
         == "{" + k1 + ": " + v1 + ", " + k2 + ": " + v2 + ", " + k3 + ": " + v3 + "}"
  {
  }

  /** Regrouping the pieces of a five-item dict's text. */
  lemma FlattenFiveItems(k1: string, v1: string, k2: string, v2: string, k3: string, v3: string,
                         k4: string, v4: string, k5: string, v5: string)
    ensures "{" + ((k1 + ": " + v1) + ", " + ((k2 + ": " + v2) + ", " + ((k3 + ": " + v3) + ", "
                 + ((k4 + ": " + v4) + ", " + (k5 + ": " + v5))))) + "}"
         == "{" + k1 + ": " + v1 + ", " + k2 + ": " + v2 + ", " + k3 + ": " + v3 + ", "
                + k4 + ": " + v4 + ", " + k5 + ": " + v5 + "}"
  {
  }

  /** One dict item as `json.dumps` writes it: the quoted key, `": "`, then the value. */
  function ItemText(item: (string, Value)): string
    requires IsPlain(item.1)
  {
    Quote(item.0) + ": " + Dumps(item.1)
  }

  /** The texts of a dict's items, in the order given. */
  function ItemTexts(items: seq<(string, Value)>): seq<string>
    requires forall i :: 0 <= i < |items| ==> IsPlain(items[i].1)
  {
    seq(|items|, i requires 0 <= i < |items| => ItemText(items[i]))
  }

  /** A dict is written as its sorted items' texts, joined by `", "`, inside braces. */
  lemma DumpsDict(fields: seq<(string, Value)>)
    requires IsPlain(Dict(fields))
    ensures forall i :: 0 <= i < |SortByKey(fields)| ==> IsPlain(SortByKey(fields)[i].1)
    ensures Dumps(Dict(fields)) == "{" + Join(ItemTexts(SortByKey(fields))) + "}"
  {
    SortByKeyMembers(fields);
    var sorted := SortByKey(fields);
    var parts := seq(|sorted|, i requires 0 <= i < |sorted| => Quote(sorted[i].0) + ": " + Dumps(sorted[i].1));
    assert Dumps(Dict(fields)) == "{" + Join(parts) + "}";
    assert parts == ItemTexts(sorted) by {
      forall i | 0 <= i < |sorted| ensures parts[i] == ItemTexts(sorted)[i] {
        assert parts[i] == ItemText(sorted[i]);
      }
    }
  }

  /**
   * The text of a dict with three items, given them in sorted order: the
   * items written as `"key": value`, separated by `", "`, inside braces.
   */
  lemma DumpsThreeItems(fields: seq<(string, Value)>, a: (string, Value), b: (string, Value), c: (string, Value))
    requires IsPlain(Dict(fields)) && SortByKey(fields) == [a, b, c]
    ensures IsPlain(a.1) && IsPlain(b.1) && IsPlain(c.1)
    ensures Dumps(Dict(fields)) == "{" + Quote(a.0) + ": " + Dumps(a.1) + ", " + Quote(b.0) + ": " + Dumps(b.1)
                                 + ", " + Quote(c.0) + ": " + Dumps(c.1) + "}"
  {
    DumpsDict(fields);
    var sorted := SortByKey(fields);
    assert sorted[0] == a && sorted[1] == b && sorted[2] == c;
    var pa, pb, pc := ItemText(a), ItemText(b), ItemText(c);
    assert ItemTexts(sorted) == [pa] + ([pb] + [pc]);
    JoinCons(pa, [pb] + [pc]);
    JoinCons(pb, [pc]);
    FlattenThreeItems(Quote(a.0), Dumps(a.1), Quote(b.0), Dumps(b.1), Quote(c.0), Dumps(c.1));
  }

  /** The text of a dict with five items, given them in sorted order. */
  lemma DumpsFiveItems(fields: seq<(string, Value)>, a: (string, Value), b: (string, Value), c: (string, Value),
                       d: (string, Value), e: (string, Value))
    requires IsPlain(Dict(fields)) && SortByKey(fields) == [a, b, c, d, e]
    ensures IsPlain(a.1) && IsPlain(b.1) && IsPlain(c.1) && IsPlain(d.1) && IsPlain(e.1)
    ensures Dumps(Dict(fields)) == "{" + Quote(a.0) + ": " + Dumps(a.1) + ", " + Quote(b.0) + ": " + Dumps(b.1)
                                 + ", " + Quote(c.0) + ": " + Dumps(c.1) + ", " + Quote(d.0) + ": " + Dumps(d.1)
                                 + ", " + Quote(e.0) + ": " + Dumps(e.1) + "}"
  {
    DumpsDict(fields);
    var sorted := SortByKey(fields);
    assert sorted[0] == a && sorted[1] == b && sorted[2] == c && sorted[3] == d && sorted[4] == e;
    assert ItemTexts(sorted) == [ItemText(a), ItemText(b), ItemText(c), ItemText(d), ItemText(e)];
    JoinFive(ItemText(a), ItemText(b), ItemText(c), ItemText(d), ItemText(e));
    FlattenFiveItems(Quote(a.0), Dumps(a.1), Quote(b.0), Dumps(b.1), Quote(c.0), Dumps(c.1),
                     Quote(d.0), Dumps(d.1), Quote(e.0), Dumps(e.1));
  }

  /**
   * `json.dumps(v, sort_keys=True)`: `None` stands for the `TypeError` it
   * raises when it meets an object it has no encoder for.
   */
  function Encode(v: Value): (r: Option<string>)
    ensures r.Some? <==> IsPlain(v)
  {
    if IsPlain(v) then Some(Dumps(v)) else None
  }

  /**
   * The encoding of a dict does not depend on the order its keys were
   * inserted in: two dicts holding the same items encode identically.
   */
  lemma EncodeOrderIndependent(f: seq<(string, Value)>, g: seq<(string, Value)>)
    requires DistinctKeys(f) && DistinctKeys(g) && multiset(f) == multiset(g)
    ensures Encode(Dict(f)) == Encode(Dict(g))
  {
    assert IsPlain(Dict(f)) <==> IsPlain(Dict(g)) by {
      forall i | 0 <= i < |g| ensures g[i] in f { assert g[i] in multiset(f); }
      forall i | 0 <= i < |f| ensures f[i] in g { assert f[i] in multiset(g); }
    }
    if IsPlain(Dict(f)) {
      SortByKeyOrderIndependent(f, g);
      assert Dumps(Dict(f)) == Dumps(Dict(g));
    }
  }
}
