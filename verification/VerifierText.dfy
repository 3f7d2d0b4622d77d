/** The text the verifier's own encoder writes, and the order a JavaScript object gives its keys. */
module VerifierText {
  import opened Bytes
  import opened Sorting
  import opened Decimal
  import opened Utf8
  import opened ManifestFormat
  import opened Formats
  import opened Normalisation
  import opened VerifierManifest

  /** The decimal text of an integer up to 2^32 - 2. */
  ghost predicate ArrayIndex(key: string, n: nat) {
    n <= 4294967294 && key == Digits(n)
  }

  lemma IndexIs(key: string)
    ensures IsIndex(key) <==> exists n :: ArrayIndex(key, n)
    ensures forall n :: ArrayIndex(key, n) ==> AllDigits(key) && DigitsValue(key) == n
  {
    forall n | ArrayIndex(key, n) ensures AllDigits(key) && DigitsValue(key) == n {
      DigitsRoundTrip(n);
    }
    hide Digits, DigitsValue;
    if IsIndex(key) {
      assert ArrayIndex(key, DigitsValue(key));
    }
  }

  /** Array indices come first, the smaller one before the larger; all other keys by their code points. */
  ghost predicate KeyBefore(a: string, b: string) {
    || (exists m, n :: ArrayIndex(a, m) && ArrayIndex(b, n) && m < n)
    || ((exists m :: ArrayIndex(a, m)) && !exists n :: ArrayIndex(b, n))
    || (!(exists m :: ArrayIndex(a, m)) && !(exists n :: ArrayIndex(b, n)) && Earlier(a, b))
  }

  lemma OwnOrderIs(a: string, b: string)
    requires ByOwnOrder(a, b) && a != b
    ensures KeyBefore(a, b)
  {
    IndexIs(a);
    IndexIs(b);
    EarlierIs(a, b);
    hide ByUtf8, Earlier, Digits, DigitsValue;
    if IsIndex(a) && IsIndex(b) {
      var m :| ArrayIndex(a, m);
      var n :| ArrayIndex(b, n);
      assert m != n;
    }
  }

  /** How the object lists the keys of an environment: all of them but `__proto__`, each once, in that order. */
  lemma ObjectKeysListed(envKeys: seq<string>, keys: set<string>)
    requires Lists(envKeys, keys)
    ensures var own := ObjectKeys(envKeys);
            && (forall k :: k in own <==> k in keys && k != "__proto__")
            && forall i, j :: 0 <= i < j < |own| ==> KeyBefore(own[i], own[j])
  {
    var own := ObjectKeys(envKeys);
    forall k ensures k in own <==> k in keys && k != "__proto__" {
      ObjectKeysIn(envKeys, k);
      assert k in envKeys <==> k in Elements(envKeys);
    }
    KeysSorted(envKeys, keys);
    hide ObjectKeys, ByOwnOrder, KeyBefore;
    forall i, j | 0 <= i < j < |own| ensures KeyBefore(own[i], own[j]) {
      OwnOrderIs(own[i], own[j]);
    }
  }

  lemma KeysSorted(envKeys: seq<string>, keys: set<string>)
    requires Lists(envKeys, keys)
    ensures SortedBy(ByOwnOrder, ObjectKeys(envKeys)) && NoDuplicates(ObjectKeys(envKeys))
  {
    ByUtf8Total();
    SortSorts(ByUtf8, envKeys);
    PermutationDistinct(envKeys, Sort(ByUtf8, envKeys));
    hide Sort, OwnKeys, ByOwnOrder, ByUtf8;
    OnlyDistinct(k => k != "__proto__", ByUtf8, Sort(ByUtf8, envKeys));
    OwnKeysSorted(Only(k => k != "__proto__", Sort(ByUtf8, envKeys)));
  }

  /** The bytes of the verifier's encoder: the text of a manifest around its packages and tools in order and the
    pairs as the object lists them. */
  lemma VerifierWritten(m: Parsed) returns (packages: seq<Package>, keys: seq<string>, tools: seq<string>)
    requires Lists(m.envKeys, m.env.Keys)
    ensures multiset(packages) == multiset(m.packages)
    ensures forall i, j :: 0 <= i < j < |packages| ==> PackageNotAfter(packages[i], packages[j])
    ensures forall k :: k in keys <==> k in m.env && k != "__proto__"
    ensures forall i, j :: 0 <= i < j < |keys| ==> KeyBefore(keys[i], keys[j])
    ensures forall t :: t in tools <==> t in m.tools
    ensures forall i, j :: 0 <= i < j < |tools| ==> Earlier(tools[i], tools[j])
    ensures VerifierBytes(m) == Encode(ManifestText(m.schemaVersion, packages, EnvPairs(m.env, keys), tools, m.memoryPointer,
                                                    m.workdirRootHashHex))
  {
    ghost var inputs := EnvironmentInputs(m.packages, map[], m.tools, m.memoryPointer);
    ghost var root: Digest := seq(32, _ => 0);
    NewPackages(inputs, root);
    NewTools(inputs, root);
    packages, keys, tools := Sort(ByNameVersion, m.packages), ObjectKeys(m.envKeys), Dedup(Sort(ByUtf8, m.tools));
    NormalLists(inputs, root);
    ObjectKeysListed(m.envKeys, m.env.Keys);
    EnvPrinted(m.env, keys);
    FieldsPrinted(m.schemaVersion, packages, OwnFields(m), tools, m.memoryPointer, m.workdirRootHashHex);
    hide Sort, Dedup, ObjectKeys, PackageNotAfter, Earlier, KeyBefore, Fields, ManifestText, New;
  }

  lemma NormalLists(inputs: EnvironmentInputs, root: Digest)
    ensures New(inputs, root).packages == Sort(ByNameVersion, inputs.packages)
    ensures New(inputs, root).tools == Dedup(Sort(ByUtf8, inputs.tools))
  {
    hide Sort, Dedup, Redact;
  }
}
