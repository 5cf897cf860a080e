/**
 Lifecycle value equality and the canonical digest (lifecycle/value.go).

 A decoded document is a `Json` tree; objects are maps, so key order and duplicate keys are gone, and
 numbers keep their lexemes. SHA-256 is taken to be injective: a digest is the bytes written to it.
 */
module Values {
  import opened Wrappers
  import opened Numbers

  datatype Json =
    | JNull
    | JBool(flag: bool)
    | JText(text: string)
    | JNumber(lexeme: string)
    | JArray(items: seq<Json>)
    | JObject(members: map<string, Json>)

  // ---- equality ----

  /** valueEqual: deep equality in which numbers compare by their normal forms. */
  predicate ValueEqual(left: Json, right: Json)
    decreases left
  {
    match left
    case JObject(members) =>
      && right.JObject? && |members| == |right.members|
      && forall key | key in members :: key in right.members && ValueEqual(members[key], right.members[key])
    case JArray(items) =>
      && right.JArray? && |items| == |right.items|
      && forall i | 0 <= i < |items| :: ValueEqual(items[i], right.items[i])
    case JNumber(lexeme) => right.JNumber? && NormalizedNumber(lexeme) == NormalizedNumber(right.lexeme)
    case _ => left == right
  }

  /** rawEqual: an absent member decodes to nothing and equals only another absent (or null) one. */
  predicate RawEqual(left: Option<Json>, right: Option<Json>) {
    ValueEqual(if left.Some? then left.value else JNull, if right.Some? then right.value else JNull)
  }

  lemma SameKeys<V>(left: map<string, V>, right: map<string, V>)
    requires |left| == |right| && left.Keys <= right.Keys
    ensures left.Keys == right.Keys
  {
    assert |right.Keys - left.Keys| == |right.Keys| - |left.Keys|;
    assert right.Keys == left.Keys + (right.Keys - left.Keys);
  }

  lemma {:induction false} ValueEqualReflexive(v: Json)
    ensures ValueEqual(v, v)
  {
    match v
    case JObject(members) => forall key | key in members { ValueEqualReflexive(members[key]); }
    case JArray(items) => forall i | 0 <= i < |items| { ValueEqualReflexive(items[i]); }
    case _ =>
  }

  lemma {:induction false} ValueEqualSymmetric(a: Json, b: Json)
    requires ValueEqual(a, b)
    ensures ValueEqual(b, a)
    decreases a
  {
    match a
    case JObject(members) =>
      SameKeys(members, b.members);
      forall key | key in members { ValueEqualSymmetric(members[key], b.members[key]); }
    case JArray(items) => forall i | 0 <= i < |items| { ValueEqualSymmetric(items[i], b.items[i]); }
    case _ =>
  }

  lemma {:induction false} ValueEqualTransitive(a: Json, b: Json, c: Json)
    requires ValueEqual(a, b) && ValueEqual(b, c)
    ensures ValueEqual(a, c)
    decreases a
  {
    match a
    case JObject(members) =>
      forall key | key in members { ValueEqualTransitive(members[key], b.members[key], c.members[key]); }
    case JArray(items) => forall i | 0 <= i < |items| { ValueEqualTransitive(items[i], b.items[i], c.items[i]); }
    case _ =>
  }

  // ---- the canonical encoding ----

  /** binary.AppendUvarint: seven bits a byte, low first, the high bit marking continuation. */
  function Uvarint(n: nat): (s: string)
    ensures s != ""
  {
    if n < 128 then [n as char] else [(128 + n % 128) as char] + Uvarint(n / 128)
  }

  function Tagged(tag: char, text: string): string {
    [tag] + Uvarint(|text|) + text
  }

  /** Byte order on strings, as slices.Sorted uses it. */
  predicate AtMost(a: string, b: string) {
    a == "" || (b != "" && (a[0] < b[0] || (a[0] == b[0] && AtMost(a[1..], b[1..]))))
  }

  lemma {:induction false} AtMostAntisymmetric(a: string, b: string)
    requires AtMost(a, b) && AtMost(b, a)
    ensures a == b
  {
    if a != "" {
      AtMostAntisymmetric(a[1..], b[1..]);
      assert a == [a[0]] + a[1..] && b == [b[0]] + b[1..];
    }
  }

  lemma {:induction false} AtMostTransitive(a: string, b: string, c: string)
    requires AtMost(a, b) && AtMost(b, c)
    ensures AtMost(a, c)
  {
    if a != "" && a[0] == b[0] == c[0] {
      AtMostTransitive(a[1..], b[1..], c[1..]);
    }
  }

  lemma {:induction false} AtMostTotal(a: string, b: string)
    ensures AtMost(a, b) || AtMost(b, a)
  {
    if a != "" && b != "" {
      AtMostTotal(a[1..], b[1..]);
    }
  }

  predicate Least(k: string, keys: set<string>) {
    k in keys && forall other | other in keys :: AtMost(k, other)
  }

  lemma {:induction false} LeastExists(keys: set<string>)
    requires keys != {}
    ensures exists k :: Least(k, keys)
  {
    var k :| k in keys;
    AtMostTotal(k, k);
    if keys == {k} {
      assert Least(k, keys);
    } else {
      LeastExists(keys - {k});
      var m :| Least(m, keys - {k});
      AtMostTotal(k, m);
      var least := if AtMost(k, m) then k else m;
      forall other | other in keys ensures AtMost(least, other) {
        if other != k && least == k { AtMostTransitive(k, m, other); }
      }
      assert Least(least, keys);
    }
  }

  function TheLeast(keys: set<string>): (k: string)
    requires keys != {}
    ensures Least(k, keys)
  {
    LeastExists(keys);
    assert forall k, m | Least(k, keys) && Least(m, keys) :: k == m by {
      forall k, m | Least(k, keys) && Least(m, keys) ensures k == m { AtMostAntisymmetric(k, m); }
    }
    var k :| Least(k, keys); k
  }

  /** slices.Sorted(maps.Keys(m)). */
  function SortedKeys(keys: set<string>): (sorted: seq<string>)
    ensures |sorted| == |keys|
    ensures forall k :: k in sorted <==> k in keys
    decreases keys
  {
    if keys == {} then []
    else
      var k := TheLeast(keys);
      [k] + SortedKeys(keys - {k})
  }

  predicate Ascending(keys: seq<string>) {
    forall i, j | 0 <= i < j < |keys| :: AtMost(keys[i], keys[j])
  }

  lemma {:induction false} SortedKeysAscend(keys: set<string>)
    ensures Ascending(SortedKeys(keys))
    decreases keys
  {
    if keys != {} {
      var k := TheLeast(keys);
      var rest := SortedKeys(keys - {k});
      SortedKeysAscend(keys - {k});
      LeastFirst(k, keys, rest);
    }
  }

  lemma LeastFirst(k: string, keys: set<string>, rest: seq<string>)
    requires Least(k, keys) && Ascending(rest) && forall m | m in rest :: m in keys
    ensures Ascending([k] + rest)
  {
    var all := [k] + rest;
    forall i, j | 0 <= i < j < |all| ensures AtMost(all[i], all[j]) {
      assert all[j] == rest[j - 1];
      if i > 0 { assert all[i] == rest[i - 1]; } else { assert rest[j - 1] in keys; }
    }
  }

  /** Everything writeCanonical writes for one value. */
  function Canonical(v: Json): (s: string)
    ensures s != ""
    decreases v
  {
    match v
    case JNull => "n"
    case JBool(flag) => if flag then "t" else "f"
    case JText(text) => Tagged('s', text)
    case JNumber(lexeme) => Tagged('d', NormalizedNumber(lexeme))
    case JArray(items) => ['a'] + Uvarint(|items|) + CanonicalItems(v, 0)
    case JObject(members) => ['o'] + Uvarint(|members|) + CanonicalMembers(v, SortedKeys(members.Keys))
  }

  function CanonicalItems(v: Json, from: nat): string
    requires v.JArray? && from <= |v.items|
    decreases v, |v.items| - from
  {
    if from == |v.items| then "" else Canonical(v.items[from]) + CanonicalItems(v, from + 1)
  }

  function CanonicalMembers(v: Json, keys: seq<string>): string
    requires v.JObject? && forall k | k in keys :: k in v.members
    decreases v, |keys|
  {
    if keys == [] then ""
    else Tagged('k', keys[0]) + Canonical(v.members[keys[0]]) + CanonicalMembers(v, keys[1..])
  }

  // ---- prefix-freeness ----

  lemma {:induction false} UvarintPrefixFree(m: nat, n: nat, s: string, t: string)
    requires Uvarint(m) + s == Uvarint(n) + t
    ensures m == n && s == t
  {
    var whole := Uvarint(m) + s;
    assert whole[0] == Uvarint(m)[0] == Uvarint(n)[0];
    if m < 128 || n < 128 {
      assert m == n;
      assert s == whole[1..] == t;
    } else {
      assert whole[1..] == Uvarint(m / 128) + s == Uvarint(n / 128) + t;
      UvarintPrefixFree(m / 128, n / 128, s, t);
    }
  }

  lemma TaggedPrefixFree(tag: char, a: string, b: string, s: string, t: string)
    requires Tagged(tag, a) + s == Tagged(tag, b) + t
    ensures a == b && s == t
  {
    var whole := Tagged(tag, a) + s;
    assert whole[1..] == Uvarint(|a|) + (a + s) == Uvarint(|b|) + (b + t);
    UvarintPrefixFree(|a|, |b|, a + s, b + t);
    assert a == (a + s)[..|a|] == b && s == (a + s)[|a|..] == t;
  }

  lemma SameTag(a: Json, b: Json, s: string, t: string)
    requires Canonical(a) + s == Canonical(b) + t
    ensures Canonical(a)[0] == Canonical(b)[0]
    ensures Canonical(a)[1..] + s == Canonical(b)[1..] + t
  {
    FirstThenRest(Canonical(a), s);
    FirstThenRest(Canonical(b), t);
  }

  lemma FirstThenRest(x: string, s: string)
    requires x != ""
    ensures (x + s)[0] == x[0] && (x + s)[1..] == x[1..] + s
  {
  }

  lemma Group(x: string, y: string, s: string)
    ensures (x + y) + s == x + (y + s)
  {
  }

  lemma Reassociate(c: string, u: string, x: string, s: string)
    ensures (c + u + x) + s == c + (u + (x + s))
  {
  }

  /** The encoding is prefix-free, and equal encodings come only from equal values. */
  lemma {:induction false} CanonicalPrefixFree(a: Json, b: Json, s: string, t: string)
    requires Canonical(a) + s == Canonical(b) + t
    ensures ValueEqual(a, b) && s == t
    decreases a, 2, 0
  {
    SameTag(a, b, s, t);
    match a
    case JText(text) => TaggedPrefixFree('s', text, b.text, s, t);
    case JNumber(lexeme) =>
      TaggedPrefixFree('d', NormalizedNumber(lexeme), NormalizedNumber(b.lexeme), s, t);
    case JArray(items) => ArrayPrefixFree(a, b, s, t);
    case JObject(members) => ObjectPrefixFree(a, b, s, t);
    case _ =>
      assert Canonical(a)[1..] == "" == Canonical(b)[1..];
      assert "" + s == s && "" + t == t;
  }

  lemma {:induction false} ArrayPrefixFree(a: Json, b: Json, s: string, t: string)
    requires a.JArray? && b.JArray?
    requires Canonical(a)[1..] + s == Canonical(b)[1..] + t
    ensures ValueEqual(a, b) && s == t
    decreases a, 1, 0
  {
    var x, y := CanonicalItems(a, 0), CanonicalItems(b, 0);
    HeadOff('a', Uvarint(|a.items|), x, s);
    HeadOff('a', Uvarint(|b.items|), y, t);
    UvarintPrefixFree(|a.items|, |b.items|, x + s, y + t);
    ItemsPrefixFree(a, b, 0, s, t);
  }

  lemma {:induction false} ObjectPrefixFree(a: Json, b: Json, s: string, t: string)
    requires a.JObject? && b.JObject?
    requires Canonical(a)[1..] + s == Canonical(b)[1..] + t
    ensures ValueEqual(a, b) && s == t
    decreases a, 1, 0
  {
    var p, q := SortedKeys(a.members.Keys), SortedKeys(b.members.Keys);
    var x, y := CanonicalMembers(a, p) + s, CanonicalMembers(b, q) + t;
    ObjectTail(a, p, s);
    ObjectTail(b, q, t);
    UvarintPrefixFree(|a.members|, |b.members|, x, y);
    MembersPrefixFree(a, b, p, q, s, t);
    ListedMembersEqual(a, b, p);
  }

  lemma ObjectTail(a: Json, keys: seq<string>, s: string)
    requires a.JObject? && keys == SortedKeys(a.members.Keys)
    ensures Canonical(a)[1..] + s == Uvarint(|a.members|) + (CanonicalMembers(a, keys) + s)
  {
    var x := CanonicalMembers(a, keys);
    HeadOff('o', Uvarint(|a.members|), x, s);
  }

  lemma HeadOff(c: char, u: string, x: string, s: string)
    ensures ([c] + u + x)[1..] + s == u + (x + s)
  {
    assert ([c] + u + x)[1..] == u + x;
  }

  lemma ListedMembersEqual(a: Json, b: Json, keys: seq<string>)
    requires a.JObject? && b.JObject? && |a.members| == |b.members|
    requires forall k :: k in keys <==> k in a.members
    requires forall k :: k in keys <==> k in b.members
    requires forall k | k in keys :: ValueEqual(a.members[k], b.members[k])
    ensures ValueEqual(a, b)
  {
  }

  lemma {:induction false} ItemsPrefixFree(a: Json, b: Json, from: nat, s: string, t: string)
    requires a.JArray? && b.JArray? && from <= |a.items| == |b.items|
    requires CanonicalItems(a, from) + s == CanonicalItems(b, from) + t
    ensures forall i | from <= i < |a.items| :: ValueEqual(a.items[i], b.items[i])
    ensures s == t
    decreases a, 0, |a.items| - from
  {
    if from == |a.items| {
      assert "" + s == s && "" + t == t;
    } else {
      var x, y := CanonicalItems(a, from + 1) + s, CanonicalItems(b, from + 1) + t;
      Group(Canonical(a.items[from]), CanonicalItems(a, from + 1), s);
      Group(Canonical(b.items[from]), CanonicalItems(b, from + 1), t);
      CanonicalPrefixFree(a.items[from], b.items[from], x, y);
      ItemsPrefixFree(a, b, from + 1, s, t);
    }
  }

  lemma MembersHead(a: Json, keys: seq<string>, s: string)
    requires a.JObject? && keys != [] && forall k | k in keys :: k in a.members
    ensures CanonicalMembers(a, keys) + s
            == Tagged('k', keys[0]) + (Canonical(a.members[keys[0]]) + (CanonicalMembers(a, keys[1..]) + s))
  {
    Reassociate(Tagged('k', keys[0]), Canonical(a.members[keys[0]]), CanonicalMembers(a, keys[1..]), s);
  }

  lemma {:induction false} MembersPrefixFree(a: Json, b: Json, p: seq<string>, q: seq<string>, s: string, t: string)
    requires a.JObject? && b.JObject? && |p| == |q|
    requires (forall k | k in p :: k in a.members) && (forall k | k in q :: k in b.members)
    requires CanonicalMembers(a, p) + s == CanonicalMembers(b, q) + t
    ensures p == q && s == t
    ensures forall k | k in p :: ValueEqual(a.members[k], b.members[k])
    decreases a, 0, |p|
  {
    if p == [] {
      assert "" + s == s && "" + t == t;
    } else {
      var k, m := p[0], q[0];
      var x, y := CanonicalMembers(a, p[1..]) + s, CanonicalMembers(b, q[1..]) + t;
      MembersHead(a, p, s);
      MembersHead(b, q, t);
      TaggedPrefixFree('k', k, m, Canonical(a.members[k]) + x, Canonical(b.members[m]) + y);
      CanonicalPrefixFree(a.members[k], b.members[m], x, y);
      MembersPrefixFree(a, b, p[1..], q[1..], s, t);
      assert p == [k] + p[1..] && q == [m] + q[1..];
    }
  }

  lemma {:induction false} EqualValuesEncodeAlike(a: Json, b: Json)
    requires ValueEqual(a, b)
    ensures Canonical(a) == Canonical(b)
    decreases a
  {
    match a
    case JArray(items) => EqualItemsEncodeAlike(a, b, 0);
    case JObject(members) =>
      SameKeys(members, b.members);
      EqualMembersEncodeAlike(a, b, SortedKeys(members.Keys));
    case _ =>
  }

  lemma {:induction false} EqualItemsEncodeAlike(a: Json, b: Json, from: nat)
    requires a.JArray? && ValueEqual(a, b) && from <= |a.items|
    ensures CanonicalItems(a, from) == CanonicalItems(b, from)
    decreases a, |a.items| - from
  {
    if from < |a.items| {
      EqualValuesEncodeAlike(a.items[from], b.items[from]);
      EqualItemsEncodeAlike(a, b, from + 1);
    }
  }

  lemma {:induction false} EqualMembersEncodeAlike(a: Json, b: Json, keys: seq<string>)
    requires a.JObject? && ValueEqual(a, b) && forall k | k in keys :: k in a.members
    ensures CanonicalMembers(a, keys) == CanonicalMembers(b, keys)
    decreases a, |keys|
  {
    if keys != [] {
      EqualValuesEncodeAlike(a.members[keys[0]], b.members[keys[0]]);
      EqualMembersEncodeAlike(a, b, keys[1..]);
    }
  }

  /** The digest compares exactly as value equality does. */
  lemma DigestIsExact(a: Json, b: Json)
    ensures Canonical(a) == Canonical(b) <==> ValueEqual(a, b)
  {
    if Canonical(a) == Canonical(b) {
      CanonicalPrefixFree(a, b, "", "");
    }
    if ValueEqual(a, b) {
      EqualValuesEncodeAlike(a, b);
    }
  }

  // ---- the writer ----

  lemma Regroup(a: string, b: string, c: string)
    ensures a + b + c == a + (b + c)
  {
  }

  /** A running hash, identified with the bytes written to it. */
  class Digest {
    var written: string

    constructor ()
      ensures written == ""
    {
      written := "";
    }

    method Write(bytes: string)
      modifies this
      ensures written == old(written) + bytes
    {
      written := written + bytes;
    }

    method WriteTagged(tag: char, text: string)
      modifies this
      ensures written == old(written) + Tagged(tag, text)
    {
      Write([tag] + Uvarint(|text|));
      Write(text);
    }

    method WriteCanonical(v: Json)
      modifies this
      ensures written == old(written) + Canonical(v)
      decreases v, 1
    {
      match v {
        case JNull => Write("n");
        case JBool(flag) => Write(if flag then "t" else "f");
        case JText(text) => WriteTagged('s', text);
        case JNumber(lexeme) => WriteTagged('d', NormalizedNumber(lexeme));
        case JArray(items) =>
          Write(['a'] + Uvarint(|items|));
          WriteItems(v);
          Regroup(old(written), ['a'] + Uvarint(|items|), CanonicalItems(v, 0));
        case JObject(members) =>
          Write(['o'] + Uvarint(|members|));
          WriteMembers(v);
          Regroup(old(written), ['o'] + Uvarint(|members|), CanonicalMembers(v, SortedKeys(members.Keys)));
      }
    }

    method WriteItems(v: Json)
      requires v.JArray?
      modifies this
      ensures written == old(written) + CanonicalItems(v, 0)
      decreases v, 0
    {
      ghost var whole := written + CanonicalItems(v, 0);
      for i := 0 to |v.items|
        invariant written + CanonicalItems(v, i) == whole
      {
        ghost var before, rest := written, CanonicalItems(v, i + 1);
        WriteCanonical(v.items[i]);
        Regroup(before, Canonical(v.items[i]), rest);
      }
    }

    method WriteMembers(v: Json)
      requires v.JObject?
      modifies this
      ensures written == old(written) + CanonicalMembers(v, SortedKeys(v.members.Keys))
      decreases v, 0
    {
      var keys := SortedKeys(v.members.Keys);
      ghost var whole := written + CanonicalMembers(v, keys);
      assert keys[0..] == keys;
      for i := 0 to |keys|
        invariant written + CanonicalMembers(v, keys[i..]) == whole
      {
        var key := keys[i];
        assert keys[i..][0] == key && keys[i..][1..] == keys[i + 1..];
        ghost var before, rest := written, CanonicalMembers(v, keys[i + 1..]);
        WriteTagged('k', key);
        WriteCanonical(v.members[key]);
        Regroup(before, Tagged('k', key), Canonical(v.members[key]));
        Regroup(before, Tagged('k', key) + Canonical(v.members[key]), rest);
      }
    }
  }

  /** frameDigest. */
  method FrameDigest(v: Json) returns (digest: string)
    ensures digest == Canonical(v)
  {
    var hash := new Digest();
    hash.WriteCanonical(v);
    digest := hash.written;
  }
}
