/** What normalising an environment does to it, said of its parts: `Manifest::new` and `is_secret_key`. */
module Normalisation {
  import opened Bytes
  import opened Sorting
  import opened Utf8
  import opened ManifestFormat
  import opened Formats

  /** A letter of a key and a small letter, case aside. */
  ghost predicate SameLetter(c: char, small: char) {
    c == small || ('A' <= c <= 'Z' && c as int + 32 == small as int)
  }

  ghost predicate SpelledAt(key: string, i: int, word: string) {
    && 0 <= i <= |key| - |word|
    && forall j :: 0 <= j < |word| ==> SameLetter(key[i + j], word[j])
  }

  ghost predicate Spelled(key: string, word: string) {
    exists i :: SpelledAt(key, i, word)
  }

  /** A key that names a secret: one of five words stands somewhere in it, in any case. */
  ghost predicate NamesSecret(key: string) {
    || Spelled(key, "secret") || Spelled(key, "token") || Spelled(key, "password") || Spelled(key, "key")
    || Spelled(key, "credential")
  }

  predicate Small(word: string) {
    forall i :: 0 <= i < |word| ==> 'a' <= word[i] <= 'z'
  }

  lemma LetterLowered(c: char, small: char)
    requires 'a' <= small <= 'z'
    ensures Lower([c])[0] == small <==> SameLetter(c, small)
  {
    assert |Lower([c])| == 1 && Lower([c])[0] == if 'A' <= c <= 'Z' then (c as int + 32) as char else c;
  }

  lemma LowerAt(s: string, i: nat)
    requires i < |s|
    ensures |Lower(s)| == |s| && Lower(s)[i] == Lower([s[i]])[0]
  {
  }

  lemma LowerTail(s: string)
    requires s != ""
    ensures Lower(s)[1..] == Lower(s[1..])
  {
  }

  lemma StartsSpelled(key: string, word: string)
    requires Small(word)
    ensures word <= Lower(key) <==> SpelledAt(key, 0, word)
  {
    hide SameLetter, Lower;
    LowerLength(key);
    forall j | 0 <= j < |word| && j < |key| ensures Lower(key)[j] == word[j] <==> SameLetter(key[j], word[j]) {
      LowerAt(key, j);
      LetterLowered(key[j], word[j]);
    }
    if SpelledAt(key, 0, word) {
      assert forall j :: 0 <= j < |word| ==> SameLetter(key[0 + j], word[j]);
      assert Lower(key)[..|word|] == word;
    }
    if word <= Lower(key) {
      assert forall j :: 0 <= j < |word| ==> Lower(key)[j] == word[j];
    }
  }

  lemma LowerLength(s: string)
    ensures |Lower(s)| == |s|
  {
  }

  lemma SpelledStep(key: string, word: string)
    requires key != ""
    ensures Spelled(key, word) <==> SpelledAt(key, 0, word) || Spelled(key[1..], word)
  {
    var t := key[1..];
    forall i: nat ensures SpelledAt(key, i + 1, word) <==> SpelledAt(t, i, word) {
      SpelledLater(key, i, word);
    }
    hide SpelledAt;
    if Spelled(key, word) && !SpelledAt(key, 0, word) {
      var i :| SpelledAt(key, i, word);
      AtNatural(key, i, word);
      var k: nat := i - 1;
      assert SpelledAt(t, k, word);
    }
    if Spelled(t, word) {
      var i :| SpelledAt(t, i, word);
      AtNatural(t, i, word);
      var k: nat := i;
      assert SpelledAt(key, k + 1, word);
    }
  }

  lemma AtNatural(key: string, i: int, word: string)
    requires SpelledAt(key, i, word)
    ensures i >= 0
  {
  }

  lemma SpelledLater(key: string, i: nat, word: string)
    requires key != ""
    ensures SpelledAt(key, i + 1, word) <==> SpelledAt(key[1..], i, word)
  {
    hide SameLetter;
    var t := key[1..];
    if SpelledAt(key, i + 1, word) {
      forall j | 0 <= j < |word| ensures SameLetter(t[i + j], word[j]) {
        assert t[i + j] == key[i + 1 + j];
      }
    }
    if SpelledAt(t, i, word) {
      forall j | 0 <= j < |word| ensures SameLetter(key[i + 1 + j], word[j]) {
        assert t[i + j] == key[i + 1 + j];
      }
    }
  }

  lemma {:induction false} ContainsSpelled(key: string, word: string)
    requires Small(word) && word != ""
    ensures Contains(Lower(key), word) <==> Spelled(key, word)
  {
    StartsSpelled(key, word);
    LowerLength(key);
    if key != "" {
      LowerTail(key);
      SpelledStep(key, word);
      ContainsSpelled(key[1..], word);
      hide SpelledAt, Lower, Small, Spelled;
    } else {
      assert !Spelled(key, word);
      hide Lower;
    }
  }

  lemma SecretExactly(key: string)
    ensures IsSecretKey(key) <==> NamesSecret(key)
  {
    ContainsSpelled(key, "secret");
    ContainsSpelled(key, "token");
    ContainsSpelled(key, "password");
    ContainsSpelled(key, "key");
    ContainsSpelled(key, "credential");
    hide Spelled, Contains, Lower;
    var words := ["secret", "token", "password", "key", "credential"];
    assert words[0] in words && words[1] in words && words[2] in words && words[3] in words && words[4] in words;
  }

  /** The order of packages: by name, and by version where names are equal. */
  ghost predicate PackageNotAfter(p: Package, q: Package) {
    Earlier(p.name, q.name) || (p.name == q.name && (p.version == q.version || Earlier(p.version, q.version)))
  }

  lemma PackageOrder(p: Package, q: Package)
    requires ByNameVersion(p, q)
    ensures PackageNotAfter(p, q)
  {
    EarlierIs(p.name, q.name);
    EarlierIs(p.version, q.version);
    hide ByUtf8, Earlier;
  }

  /** A new manifest: what it keeps, what it replaces, and in what order it lists. */
  lemma NewExactly(inputs: EnvironmentInputs, root: Digest)
    ensures var m := New(inputs, root);
            && m.schemaVersion == 1 && m.memoryPointer == inputs.memoryPointer && m.workdirRootHash == root
            && m.env.Keys == inputs.env.Keys
            && (forall k :: k in inputs.env ==> m.env[k] == if NamesSecret(k) then "<redacted>" else inputs.env[k])
            && multiset(m.packages) == multiset(inputs.packages)
            && (forall i, j :: 0 <= i < j < |m.packages| ==> PackageNotAfter(m.packages[i], m.packages[j]))
            && (forall t :: t in m.tools <==> t in inputs.tools)
            && (forall i, j :: 0 <= i < j < |m.tools| ==> Earlier(m.tools[i], m.tools[j]))
  {
    var m := New(inputs, root);
    NewPackages(inputs, root);
    NewTools(inputs, root);
    forall k | k in inputs.env ensures m.env[k] == if NamesSecret(k) then "<redacted>" else inputs.env[k] {
      SecretExactly(k);
    }
    hide Sort, Dedup, IsSecretKey, NamesSecret, PackageNotAfter, Earlier, ByUtf8;
  }

  lemma NewPackages(inputs: EnvironmentInputs, root: Digest)
    ensures var packages := New(inputs, root).packages;
            && multiset(packages) == multiset(inputs.packages)
            && forall i, j :: 0 <= i < j < |packages| ==> PackageNotAfter(packages[i], packages[j])
  {
    var packages := New(inputs, root).packages;
    ByNameVersionTotal();
    SortSorts(ByNameVersion, inputs.packages);
    hide Sort, Redact, Dedup, ByNameVersion, PackageNotAfter, ByUtf8;
    forall i, j | 0 <= i < j < |packages| ensures PackageNotAfter(packages[i], packages[j]) {
      PackageOrder(packages[i], packages[j]);
    }
  }

  lemma NewTools(inputs: EnvironmentInputs, root: Digest)
    ensures var tools := New(inputs, root).tools;
            && (forall t :: t in tools <==> t in inputs.tools)
            && forall i, j :: 0 <= i < j < |tools| ==> Earlier(tools[i], tools[j])
  {
    var sorted := Sort(ByUtf8, inputs.tools);
    var tools := New(inputs, root).tools;
    ByUtf8Total();
    SortSorts(ByUtf8, inputs.tools);
    SameMembers(sorted, inputs.tools);
    DedupSorted(ByUtf8, sorted);
    hide Sort, Redact, Dedup, ByUtf8, Earlier;
    forall t ensures t in tools <==> t in inputs.tools {
      assert t in tools <==> t in Elements(tools);
      assert t in sorted <==> t in Elements(sorted);
    }
    forall i, j | 0 <= i < j < |tools| ensures Earlier(tools[i], tools[j]) {
      EarlierIs(tools[i], tools[j]);
    }
  }
}
