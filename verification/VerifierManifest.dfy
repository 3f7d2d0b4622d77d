/** The verifier's own manifest encoder, and when it writes the engine's bytes.

  The environment passes through a plain JavaScript object, whose own keys do not keep insertion
  order in general: array indices come first in numeric order, and assigning `__proto__` a string
  creates no key at all. */
module VerifierManifest {
  import opened Bytes
  import opened Sorting
  import opened Decimal
  import opened JsonText
  import opened JsonFields
  import opened Utf8
  import opened ManifestFormat

  /** The verifier's `Manifest`: `envKeys` is the order `Object.keys(env)` lists. */
  datatype Parsed = Parsed(
    schemaVersion: nat, packages: seq<Package>, env: map<string, string>, envKeys: seq<string>,
    tools: seq<string>, memoryPointer: Option<string>, workdirRootHashHex: string)

  // ----- dedupeSorted -----

  lemma {:induction false} DedupSnoc(s: seq<string>, x: string)
    ensures s != [] ==> Dedup(s) != [] && Dedup(s)[|Dedup(s)| - 1] == s[|s| - 1]
    ensures Dedup(s + [x]) == if s != [] && s[|s| - 1] == x then Dedup(s) else Dedup(s) + [x]
  {
    if |s| == 1 {
      assert (s + [x])[1..] == [x] && Dedup([x]) == [x];
    } else if |s| > 1 {
      DedupSnoc(s[1..], x);
      assert (s + [x])[1..] == s[1..] + [x];
    }
  }

  method DedupeSorted(sorted: seq<string>) returns (out: seq<string>)
    ensures out == Dedup(sorted)
  {
    out := [];
    for i := 0 to |sorted|
      invariant out == Dedup(sorted[..i])
    {
      var item := sorted[i];
      DedupSnoc(sorted[..i], item);
      assert sorted[..i + 1] == sorted[..i] + [item];
      if |out| == 0 || out[|out| - 1] != item {
        out := out + [item];
      }
    }
    assert sorted[..|sorted|] == sorted;
  }

  // ----- JavaScript object keys -----

  /** An array index: the decimal text of an integer below 2^32 - 1. */
  predicate IsIndex(key: string) {
    key != "" && AllDigits(key) && Digits(DigitsValue(key)) == key && DigitsValue(key) < 0xFFFF_FFFF
  }

  /** Array indices first, in numeric order; the order of the other keys among themselves is only
    used to make this a total order. */
  predicate ByOwnOrder(a: string, b: string) {
    if IsIndex(a) && IsIndex(b) then DigitsValue(a) <= DigitsValue(b)
    else if IsIndex(a) || IsIndex(b) then IsIndex(a)
    else ByUtf8(a, b)
  }

  lemma ByOwnOrderTotal()
    ensures TotalOrder(ByOwnOrder)
  {
    ByUtf8Total();
    forall a: string, b: string, c: string | ByOwnOrder(a, b) && ByOwnOrder(b, c)
      ensures ByOwnOrder(a, c)
    {
      if !IsIndex(a) {
        assert !IsIndex(b) && !IsIndex(c) && ByUtf8(a, c);
      }
    }
  }

  function Only(keep: string -> bool, keys: seq<string>): (r: seq<string>)
    ensures forall k :: k in r <==> k in keys && keep(k)
  {
    if keys == [] then []
    else if keep(keys[0]) then [keys[0]] + Only(keep, keys[1..])
    else Only(keep, keys[1..])
  }

  /** The order in which an object that was given these keys lists them. */
  function OwnKeys(inserted: seq<string>): seq<string> {
    Sort(ByOwnOrder, Only(k => IsIndex(k), inserted)) + Only(k => !IsIndex(k), inserted)
  }

  function ObjectKeys(envKeys: seq<string>): seq<string> {
    OwnKeys(Only(k => k != "__proto__", Sort(ByUtf8, envKeys)))
  }

  ghost predicate Lists(keys: seq<string>, s: set<string>) {
    NoDuplicates(keys) && Elements(keys) == s
  }

  lemma ObjectKeysIn(envKeys: seq<string>, k: string)
    ensures k in ObjectKeys(envKeys) <==> k in envKeys && k != "__proto__"
  {
    SameMembers(envKeys, Sort(ByUtf8, envKeys));
    OwnKeysIn(Only(k => k != "__proto__", Sort(ByUtf8, envKeys)), k);
  }

  ghost function OwnFields(m: Parsed): seq<Field>
    requires Lists(m.envKeys, m.env.Keys)
  {
    forall k ensures k in ObjectKeys(m.envKeys) ==> k in m.env {
      ObjectKeysIn(m.envKeys, k);
      assert k in m.envKeys ==> k in Elements(m.envKeys);
    }
    MapFields(m.env, ObjectKeys(m.envKeys), TextJson)
  }

  ghost function VerifierJson(m: Parsed): Json
    requires Lists(m.envKeys, m.env.Keys)
  {
    Obj(Fields(m.schemaVersion, Sort(ByNameVersion, m.packages), OwnFields(m),
               Dedup(Sort(ByUtf8, m.tools)), m.memoryPointer, m.workdirRootHashHex))
  }

  ghost function VerifierBytes(m: Parsed): Bytes
    requires Lists(m.envKeys, m.env.Keys)
  {
    ToBytes(VerifierJson(m))
  }

  /** The loop that fills the fresh object `env`, in the given order. */
  method FillEnv(source: map<string, string>, keys: seq<string>) returns (inserted: seq<string>, env: map<string, string>)
    requires forall k :: k in keys ==> k in source
    ensures inserted == Only(k => k != "__proto__", keys)
    ensures forall k :: k in inserted ==> k in env && k in source && env[k] == source[k]
  {
    inserted, env := [], map[];
    for i := 0 to |keys|
      invariant inserted == Only(k => k != "__proto__", keys[..i])
      invariant forall k :: k in inserted ==> k in env && k in source && env[k] == source[k]
    {
      OnlySnoc(k => k != "__proto__", keys[..i], keys[i]);
      assert keys[..i + 1] == keys[..i] + [keys[i]];
      if keys[i] != "__proto__" {
        inserted := inserted + [keys[i]];
        env := env[keys[i] := source[keys[i]]];
      }
    }
    assert keys[..|keys|] == keys;
  }

  /** `canonicalManifestBytes`: sort, fill the object key by key, print. */
  method CanonicalManifestBytes(m: Parsed) returns (bytes: Bytes)
    requires Lists(m.envKeys, m.env.Keys)
    ensures bytes == VerifierBytes(m)
  {
    hide Sort, Only, Dedup, Print;
    var packages := Sort(ByNameVersion, m.packages);
    var tools := DedupeSorted(Sort(ByUtf8, m.tools));
    var keys := Sort(ByUtf8, m.envKeys);
    SameMembers(m.envKeys, keys);
    assert forall k :: k in keys ==> k in Elements(m.envKeys);
    var inserted, env := FillEnv(m.env, keys);
    var own := OwnKeys(inserted);
    forall k ensures k in own ==> k in env && k in m.env && env[k] == m.env[k] {
      OwnKeysIn(inserted, k);
    }
    var fields := MapFields(env, own, TextJson);
    assert fields == OwnFields(m);
    bytes := ToBytes(Obj(Fields(m.schemaVersion, packages, fields, tools, m.memoryPointer, m.workdirRootHashHex)));
  }

  lemma {:induction false} OnlySnoc(keep: string -> bool, keys: seq<string>, k: string)
    ensures Only(keep, keys + [k]) == if keep(k) then Only(keep, keys) + [k] else Only(keep, keys)
  {
    if keys == [] {
      assert keys + [k] == [k] && [k][1..] == [];
    } else {
      OnlySnoc(keep, keys[1..], k);
      assert (keys + [k])[1..] == keys[1..] + [k];
    }
  }

  lemma OwnKeysIn(inserted: seq<string>, k: string)
    ensures k in OwnKeys(inserted) <==> k in inserted
  {
    SameMembers(Only(k => IsIndex(k), inserted), Sort(ByOwnOrder, Only(k => IsIndex(k), inserted)));
  }

  // ----- the object's key order -----

  lemma {:induction false} OnlyDistinct(keep: string -> bool, le: Order<string>, keys: seq<string>)
    requires NoDuplicates(keys) && SortedBy(le, keys)
    ensures NoDuplicates(Only(keep, keys)) && SortedBy(le, Only(keep, keys))
  {
    if keys != [] {
      var k, rest := keys[0], Only(keep, keys[1..]);
      OnlyDistinct(keep, le, keys[1..]);
      forall x | x in rest ensures le(k, x) && k != x {
        assert x in keys[1..];
      }
      assert Only(keep, keys) == if keep(k) then [k] + rest else rest;
    }
  }

  lemma {:induction false} OnlyAll(keep: string -> bool, keys: seq<string>)
    requires forall k :: k in keys ==> keep(k)
    ensures Only(keep, keys) == keys
  {
    if keys != [] {
      OnlyAll(keep, keys[1..]);
      assert keys == [keys[0]] + keys[1..];
    }
  }

  /** Filled in byte order, the object lists its keys sorted by its own order. */
  lemma OwnKeysSorted(inserted: seq<string>)
    requires NoDuplicates(inserted) && SortedBy(ByUtf8, inserted)
    ensures SortedBy(ByOwnOrder, OwnKeys(inserted)) && NoDuplicates(OwnKeys(inserted))
    ensures Elements(OwnKeys(inserted)) == Elements(inserted)
  {
    ByUtf8Total();
    ByOwnOrderTotal();
    var indices, others := Only(k => IsIndex(k), inserted), Only(k => !IsIndex(k), inserted);
    var a := Sort(ByOwnOrder, indices);
    OnlyDistinct(k => IsIndex(k), ByUtf8, inserted);
    OnlyDistinct(k => !IsIndex(k), ByUtf8, inserted);
    SortSorts(ByOwnOrder, indices);
    PermutationDistinct(indices, a);
    SameMembers(indices, a);
    IndicesFirst(a, others);
    forall k ensures k in OwnKeys(inserted) <==> k in inserted {
      OwnKeysIn(inserted, k);
    }
  }

  lemma IndicesFirst(a: seq<string>, others: seq<string>)
    requires SortedBy(ByOwnOrder, a) && NoDuplicates(a) && forall k :: k in a ==> IsIndex(k)
    requires SortedBy(ByUtf8, others) && NoDuplicates(others) && forall k :: k in others ==> !IsIndex(k)
    ensures SortedBy(ByOwnOrder, a + others) && NoDuplicates(a + others)
  {
    forall i, j | 0 <= i < j < |a + others|
      ensures ByOwnOrder((a + others)[i], (a + others)[j]) && (a + others)[i] != (a + others)[j]
    {
      if i < |a| && |a| <= j {
        assert a[i] in a && others[j - |a|] in others;
      } else if |a| <= i {
        assert others[i - |a|] in others && others[j - |a|] in others;
      }
    }
  }

  // ----- agreement -----

  /** No `__proto__`, and every array index stands, against every other key, in byte order exactly
    where its numeric value and its priority put it. */
  ghost predicate PlainKeys(keys: set<string>) {
    && "__proto__" !in keys
    && forall a, b :: a in keys && b in keys && IsIndex(a) ==> (ByUtf8(a, b) <==> ByOwnOrder(a, b))
  }

  lemma KeysAgree(envKeys: seq<string>, keys: set<string>)
    requires Lists(envKeys, keys)
    ensures ObjectKeys(envKeys) == SortSet(ByUtf8, keys) <==> PlainKeys(keys)
  {
    var sorted := SortSet(ByUtf8, keys);
    ByUtf8Total();
    ByOwnOrderTotal();
    SortedKeys(keys);
    SortSorts(ByUtf8, envKeys);
    PermutationDistinct(envKeys, Sort(ByUtf8, envKeys));
    StrictUnique(ByUtf8, Sort(ByUtf8, envKeys), sorted);
    var own := ObjectKeys(envKeys);
    if "__proto__" in keys {
      assert "__proto__" in sorted;
      ObjectKeysIn(envKeys, "__proto__");
    } else {
      OnlyAll(k => k != "__proto__", sorted);
      OwnKeysSorted(sorted);
      if PlainKeys(keys) {
        AgreeingOrders(sorted, keys);
        StrictUnique(ByOwnOrder, own, sorted);
      }
      if own == sorted {
        OrdersAgree(sorted, keys);
      }
    }
  }

  lemma OrdersAgree(sorted: seq<string>, keys: set<string>)
    requires SortedBy(ByUtf8, sorted) && SortedBy(ByOwnOrder, sorted) && NoDuplicates(sorted)
    requires Elements(sorted) == keys
    ensures forall a, b :: a in keys && b in keys ==> (ByUtf8(a, b) <==> ByOwnOrder(a, b))
  {
    ByUtf8Total();
    ByOwnOrderTotal();
    forall a, b | a in keys && b in keys ensures ByUtf8(a, b) <==> ByOwnOrder(a, b) {
      assert a in sorted && b in sorted;
      var i :| 0 <= i < |sorted| && sorted[i] == a;
      var j :| 0 <= j < |sorted| && sorted[j] == b;
      PositionDecides(ByUtf8, sorted, i, j);
      PositionDecides(ByOwnOrder, sorted, i, j);
    }
  }

  lemma PositionDecides(le: Order<string>, s: seq<string>, i: nat, j: nat)
    requires TotalOrder(le) && SortedBy(le, s) && NoDuplicates(s) && i < |s| && j < |s|
    ensures le(s[i], s[j]) <==> i <= j
  {
  }

  lemma AgreeingOrders(sorted: seq<string>, keys: set<string>)
    requires SortedBy(ByUtf8, sorted) && Elements(sorted) == keys && PlainKeys(keys)
    ensures SortedBy(ByOwnOrder, sorted)
  {
    ByUtf8Total();
    ByOwnOrderTotal();
    forall i, j | 0 <= i < j < |sorted| ensures ByOwnOrder(sorted[i], sorted[j]) {
      var a, b := sorted[i], sorted[j];
      assert a in Elements(sorted) && b in Elements(sorted) && ByUtf8(a, b);
      assert IsIndex(b) ==> (ByUtf8(b, a) <==> ByOwnOrder(b, a));
    }
  }

  /** The fields of a manifest as the verifier may receive them: lists in any order, tools
    repeated at will. */
  ghost predicate FieldsOf(p: Parsed, m: Manifest) {
    && p.schemaVersion == m.schemaVersion
    && multiset(p.packages) == multiset(m.packages)
    && p.env == m.env && Lists(p.envKeys, m.env.Keys)
    && Elements(p.tools) == Elements(m.tools)
    && p.memoryPointer == m.memoryPointer
    && p.workdirRootHashHex == ToHex(m.workdirRootHash)
  }

  /** The two encoders write the same bytes exactly when the environment's keys are plain. */
  lemma EncodersAgree(inputs: EnvironmentInputs, root: Digest, p: Parsed)
    requires FieldsOf(p, New(inputs, root))
    ensures VerifierBytes(p) == CanonicalBytes(New(inputs, root)) <==> PlainKeys(inputs.env.Keys)
  {
    var m := New(inputs, root);
    assert m.env.Keys == inputs.env.Keys;
    KeysAgree(p.envKeys, m.env.Keys);
    ByNameVersionTotal();
    SortDeterminedByContents(ByNameVersion, p.packages, inputs.packages);
    NormalTools(p.tools, inputs.tools);
    ManifestSorted(inputs, root);
    var own, sorted := ObjectKeys(p.envKeys), SortSet(ByUtf8, m.env.Keys);
    if own != sorted {
      JsonTextRoundTrip(VerifierJson(p));
      JsonTextRoundTrip(ToJson(m));
      if VerifierBytes(p) == CanonicalBytes(m) {
        SameEnvKeys(p, m);
      }
    }
  }

  lemma SameEnvKeys(p: Parsed, m: Manifest)
    requires Lists(p.envKeys, p.env.Keys) && p.env == m.env
    requires VerifierJson(p) == ToJson(m)
    ensures ObjectKeys(p.envKeys) == SortSet(ByUtf8, m.env.Keys)
  {
    SortedKeys(m.env.Keys);
    assert OwnFields(p) == EnvFields(m.env) by {
      SameFields(p.schemaVersion, Sort(ByNameVersion, p.packages), OwnFields(p),
                 Dedup(Sort(ByUtf8, p.tools)), p.memoryPointer, p.workdirRootHashHex,
                 m.schemaVersion, m.packages, EnvFields(m.env), m.tools, m.memoryPointer, ToHex(m.workdirRootHash));
    }
    OwnFieldsKeys(p);
    KeysOf(m.env, SortSet(ByUtf8, m.env.Keys), EnvFields(m.env));
  }

  lemma OwnFieldsKeys(p: Parsed)
    requires Lists(p.envKeys, p.env.Keys)
    ensures ObjectKeys(p.envKeys) == KeyList(OwnFields(p))
  {
  }

  ghost function KeyList(fields: seq<Field>): seq<string> {
    seq(|fields|, i requires 0 <= i < |fields| => fields[i].key)
  }

  lemma SameFields(v: nat, p: seq<Package>, e: seq<Field>, t: seq<string>, mp: Option<string>, r: string,
                   v': nat, p': seq<Package>, e': seq<Field>, t': seq<string>, mp': Option<string>, r': string)
    requires Fields(v, p, e, t, mp, r) == Fields(v', p', e', t', mp', r')
    ensures e == e'
  {
    assert Fields(v, p, e, t, mp, r)[2] == Field("env", Obj(e));
    assert Fields(v', p', e', t', mp', r')[2] == Field("env", Obj(e'));
  }

  lemma KeysOf(env: map<string, string>, keys: seq<string>, fields: seq<Field>)
    requires (forall k :: k in keys ==> k in env) && fields == MapFields(env, keys, TextJson)
    ensures keys == KeyList(fields)
  {
  }

  lemma NormalTools(listed: seq<string>, given: seq<string>)
    requires Elements(listed) == Elements(Dedup(Sort(ByUtf8, given)))
    ensures Dedup(Sort(ByUtf8, listed)) == Dedup(Sort(ByUtf8, given))
  {
    ByUtf8Total();
    SortSorts(ByUtf8, given);
    DedupSorted(ByUtf8, Sort(ByUtf8, given));
    SameMembers(given, Sort(ByUtf8, given));
    assert Elements(Sort(ByUtf8, given)) == Elements(given);
    ToolsDetermined(listed, given);
  }

  lemma ManifestSorted(inputs: EnvironmentInputs, root: Digest)
    ensures multiset(New(inputs, root).packages) == multiset(inputs.packages)
  {
  }

  /** Two environments on which the encoders part ways: "!" sorts before "1" in bytes, but the
    object lists the index first; and a key `__proto__` is lost. */
  lemma EncodersDisagree()
    ensures !PlainKeys({"!", "1"}) && !PlainKeys({"__proto__"})
  {
    assert "1"[..0] == "" && DigitsValue("1"[..0]) == 0 && DigitsValue("1") == 1;
    assert Digits(1) == "1" && IsIndex("1") && !IsIndex("!");
    assert Encode("!") == EncodeChar('!') + [] && Encode("1") == EncodeChar('1') + [];
    assert ByOwnOrder("1", "!") && !ByUtf8("1", "!");
  }
}
