/** `put` as the separate steps other processes can see: look for the object, open the temporary file
  and truncate it, write to the open file, rename it. Any number of writers interleave and may stop at
  any point and start over.

  `fs::write` looks its name up once and then holds the file it opened, so names and files are apart
  here: a name leads to a file number, and what a writer still writes after somebody renamed its file
  lands in the renamed file. */
module CasSteps {
  import opened Bytes
  import opened Cas

  datatype Pc = Check | Create | Append(file: nat, written: nat) | Stopped | Failed | Finished

  datatype Writer = Writer(content: Bytes, pc: Pc)

  datatype Files = Files(names: map<string, nat>, data: map<nat, Bytes>)

  datatype State = State(files: Files, writers: seq<Writer>)

  ghost function Final(h: Hash, w: Writer): string {
    ToHex(h(w.content))
  }

  ghost function Temp(h: Hash, w: Writer): string {
    TempName(h(w.content))
  }

  function Content(f: Files, file: nat): Bytes {
    if file in f.data then f.data[file] else []
  }

  /** What a reader finds under each name. */
  function Visible(f: Files): map<string, Bytes> {
    map n | n in f.names :: Content(f, f.names[n])
  }

  /** `write(2)` at an offset: what is missing before it reads as zeros, what is behind it stays. */
  function WriteAt(before: Bytes, at: nat, chunk: Bytes): Bytes {
    (if at <= |before| then before[..at] else before + seq(at - |before|, _ => 0))
    + chunk
    + (if at + |chunk| <= |before| then before[at + |chunk|..] else [])
  }

  /** `open(2)` with create and truncate: the file under the name, emptied, or a new one. */
  ghost predicate Opened(f: Files, name: string, f': Files, file: nat) {
    if name in f.names then file == f.names[name] && f' == f.(data := f.data[file := []])
    else file !in f.data && f' == Files(f.names[name := file], f.data[file := []])
  }

  /** One step of one writer. */
  ghost predicate WriterStep(h: Hash, f: Files, w: Writer, f': Files, w': Writer) {
    var tmp, fin := Temp(h, w), Final(h, w);
    && w'.content == w.content
    && match w.pc
       case Check => f' == f && w'.pc == if fin in f.names then Finished else Create
       case Create => w'.pc.Append? && w'.pc.written == 0 && Opened(f, tmp, f', w'.pc.file)
       case Append(file, n) =>
         if n < |w.content| then
           && w'.pc.Append? && w'.pc.file == file && n < w'.pc.written <= |w.content|
           && f' == f.(data := f.data[file := WriteAt(Content(f, file), n, w.content[n..w'.pc.written])])
         else if tmp !in f.names then f' == f && w'.pc == Failed
         else
           && f' == f.(names := (f.names - {tmp})[fin := f.names[tmp]])
           && w'.pc == Finished
       case Stopped => f' == f && w'.pc == Check
       case Failed => false
       case Finished => false
  }

  ghost predicate StepOf(h: Hash, s: State, s': State, i: nat)
    requires i < |s.writers|
  {
    && |s'.writers| == |s.writers|
    && (forall j :: 0 <= j < |s.writers| && j != i ==> s'.writers[j] == s.writers[j])
    && (|| WriterStep(h, s.files, s.writers[i], s'.files, s'.writers[i])
        || (s'.files == s.files && s'.writers[i] == s.writers[i].(pc := Stopped)))
  }

  /** A step of the system: one writer moves, or one stops where it is. */
  ghost predicate Step(h: Hash, s: State, s': State) {
    exists i :: 0 <= i < |s.writers| && StepOf(h, s, s', i)
  }

  ghost predicate Run(h: Hash, run: seq<State>) {
    run != [] && forall k :: 0 <= k < |run| - 1 ==> Step(h, run[k], run[k + 1])
  }

  // ----- what a run should keep -----

  ghost predicate ObjectsSound(h: Hash, f: Files) {
    forall d: Digest :: ToHex(d) in f.names ==> h(Content(f, f.names[ToHex(d)])) == d
  }

  /** Stored objects stay as they are. */
  ghost predicate ObjectsKept(f: Files, f': Files) {
    forall d: Digest :: ToHex(d) in f.names ==>
      ToHex(d) in f'.names && Content(f', f'.names[ToHex(d)]) == Content(f, f.names[ToHex(d)])
  }

  /** In every state an object name is absent or holds bytes with that digest, objects never change,
    and no writer fails. */
  ghost predicate SafeRun(h: Hash, run: seq<State>) {
    && (forall k :: 0 <= k < |run| ==> ObjectsSound(h, run[k].files))
    && (forall i, j :: 0 <= i <= j < |run| ==> ObjectsKept(run[i].files, run[j].files))
    && (forall k, i :: 0 <= k < |run| && 0 <= i < |run[k].writers| ==> run[k].writers[i].pc != Failed)
  }

  /** No file has two names, and every name leads to a file. */
  ghost predicate OneNameEach(f: Files) {
    && (forall a :: a in f.names ==> f.names[a] in f.data)
    && (forall a, b :: a in f.names && b in f.names && f.names[a] == f.names[b] ==> a == b)
  }

  /** A start: whatever objects and left-over temporaries there are, and writers that have begun
    nothing. */
  ghost predicate Start(h: Hash, s: State) {
    && ObjectsSound(h, s.files) && OneNameEach(s.files) && Tidy(Visible(s.files))
    && forall i :: 0 <= i < |s.writers| ==> s.writers[i].pc == Check
  }

  /** Writers that share a digest put what is stored already. */
  ghost predicate Uncontested(h: Hash, s: State) {
    forall i, j :: 0 <= i < j < |s.writers| && h(s.writers[i].content) == h(s.writers[j].content) ==>
      Final(h, s.writers[i]) in s.files.names
  }

  // ----- safety -----

  ghost predicate WriterInv(h: Hash, f: Files, w: Writer) {
    match w.pc
    case Create => Final(h, w) !in f.names
    case Append(file, n) =>
      && Final(h, w) !in f.names && n <= |w.content|
      && Temp(h, w) in f.names && f.names[Temp(h, w)] == file && Content(f, file) == w.content[..n]
    case Finished => Final(h, w) in f.names
    case Failed => false
    case _ => true
  }

  /** What holds in every state: in particular a temporary holds exactly what its one writer has
    written. */
  ghost predicate Inv(h: Hash, s: State) {
    && ObjectsSound(h, s.files) && OneNameEach(s.files) && Tidy(Visible(s.files))
    && Uncontested(h, s)
    && forall i :: 0 <= i < |s.writers| ==> WriterInv(h, s.files, s.writers[i])
  }

  lemma NamesOnce()
    ensures forall d: Digest :: !IsTemp(ToHex(d))
    ensures forall d: Digest, e: Digest :: ToHex(e) == ToHex(d) ==> e == d
  {
    forall d: Digest ensures !IsTemp(ToHex(d)) {
      HexIsNotTemp(d);
    }
    forall d: Digest, e: Digest | ToHex(e) == ToHex(d) ensures e == d {
      HexInjective(e, d);
    }
  }

  lemma NamesApart(h: Hash, v: Writer, w: Writer)
    requires h(v.content) != h(w.content)
    ensures Final(h, v) != Final(h, w) && Temp(h, v) != Temp(h, w)
  {
    NamesOnce();
    assert Temp(h, v)[5..] == Final(h, v) && Temp(h, w)[5..] == Final(h, w);
  }

  lemma FinalNotTemp(h: Hash, v: Writer, w: Writer)
    ensures Final(h, v) != Temp(h, w)
  {
    HexIsNotTemp(h(v.content));
  }

  lemma WriteNext(content: Bytes, n: nat, m: nat)
    requires n <= m <= |content|
    ensures WriteAt(content[..n], n, content[n..m]) == content[..m]
  {
  }

  /** Every name but these two leads where it led, to the same bytes. */
  ghost predicate SameElsewhere(f: Files, f': Files, tmp: string, fin: string) {
    forall n :: n != tmp && n != fin ==>
      && (n in f.names <==> n in f'.names)
      && (n in f.names ==> f'.names[n] == f.names[n] && Content(f', f'.names[n]) == Content(f, f.names[n]))
  }

  lemma WriterMoves(h: Hash, f: Files, w: Writer, f': Files, w': Writer)
    requires OneNameEach(f) && WriterInv(h, f, w) && WriterStep(h, f, w, f', w')
    ensures OneNameEach(f') && WriterInv(h, f', w')
    ensures SameElsewhere(f, f', Temp(h, w), Final(h, w))
    ensures Final(h, w) in f.names ==> f' == f
    ensures Final(h, w) in f'.names && Final(h, w) !in f.names ==> Content(f', f'.names[Final(h, w)]) == w.content
  {
    FinalNotTemp(h, w, w);
    if w.pc.Append? {
      WriteNext(w.content, w.pc.written, if w'.pc.Append? && w.pc.written < w'.pc.written <= |w.content| then w'.pc.written else |w.content|);
      assert w.content[..|w.content|] == w.content;
    }
  }

  lemma FilesKept(h: Hash, f: Files, w: Writer, f': Files)
    requires ObjectsSound(h, f) && Tidy(Visible(f))
    requires SameElsewhere(f, f', Temp(h, w), Final(h, w))
    requires Final(h, w) in f.names ==> f' == f
    requires Final(h, w) in f'.names && Final(h, w) !in f.names ==> Content(f', f'.names[Final(h, w)]) == w.content
    ensures ObjectsSound(h, f') && Tidy(Visible(f')) && ObjectsKept(f, f')
  {
    NamesOnce();
  }

  lemma OtherWriterKept(h: Hash, f: Files, w: Writer, f': Files, v: Writer)
    requires WriterInv(h, f, v) && SameElsewhere(f, f', Temp(h, w), Final(h, w))
    requires Final(h, w) in f.names ==> f' == f
    requires h(v.content) == h(w.content) ==> Final(h, w) in f.names
    ensures WriterInv(h, f', v)
  {
    if h(v.content) != h(w.content) {
      NamesApart(h, v, w);
      FinalNotTemp(h, v, w);
      FinalNotTemp(h, w, v);
    }
  }

  /** Every step of every interleaving keeps the invariant and every stored object. */
  lemma StepSafe(h: Hash, s: State, s': State)
    requires Inv(h, s) && Step(h, s, s')
    ensures Inv(h, s') && ObjectsKept(s.files, s'.files)
  {
    var i :| 0 <= i < |s.writers| && StepOf(h, s, s', i);
    if WriterStep(h, s.files, s.writers[i], s'.files, s'.writers[i]) {
      var w := s.writers[i];
      WriterMoves(h, s.files, w, s'.files, s'.writers[i]);
      FilesKept(h, s.files, w, s'.files);
      hide WriterStep, WriterInv, ObjectsSound, Tidy, SameElsewhere, OneNameEach, Visible;
      forall j | 0 <= j < |s.writers| && j != i ensures WriterInv(h, s'.files, s'.writers[j]) {
        OtherWriterKept(h, s.files, w, s'.files, s.writers[j]);
      }
    }
  }

  /** Over a whole run, objects are sound in every state and never change once they are there. */
  lemma {:induction false} RunSafe(h: Hash, run: seq<State>, i: nat, j: nat)
    requires Run(h, run) && Start(h, run[0]) && Uncontested(h, run[0])
    requires i <= j < |run|
    ensures Inv(h, run[j]) && ObjectsKept(run[i].files, run[j].files)
    decreases j
  {
    if i < j {
      RunSafe(h, run, i, j - 1);
      StepSafe(h, run[j - 1], run[j - 1 + 1]);
    } else if j > 0 {
      RunSafe(h, run, j - 1, j - 1);
      StepSafe(h, run[j - 1], run[j - 1 + 1]);
    }
  }

  /** So in every state a reader sees only whole objects, and a finished put left its own content
    behind, or its digest was already taken by other bytes. */
  lemma ReadersSeeObjects(h: Hash, run: seq<State>, j: nat, i: nat, objs: Objects)
    requires Run(h, run) && Start(h, run[0]) && Uncontested(h, run[0]) && j < |run|
    requires Represents(Visible(run[j].files), objs)
    ensures Sound(h, objs)
    ensures i < |run[j].writers| && run[j].writers[i].pc == Finished ==>
              var w := run[j].writers[i];
              && h(w.content) in objs
              && (objs[h(w.content)] == w.content || Collides(h, {w.content, objs[h(w.content)]}))
  {
    RunSafe(h, run, j, j);
    if i < |run[j].writers| && run[j].writers[i].pc == Finished {
      var w := run[j].writers[i];
      CollidesIn(h, {w.content, objs[h(w.content)]}, w.content, objs[h(w.content)]);
    }
  }

  // ----- exactly when -----

  lemma ExtendRun(h: Hash, run: seq<State>, s: State)
    requires Run(h, run) && Step(h, run[|run| - 1], s)
    ensures Run(h, run + [s]) && (run + [s])[0] == run[0]
  {
    var more := run + [s];
    forall k | 0 <= k < |more| - 1 ensures Step(h, more[k], more[k + 1]) {
      assert more[k] == run[k] && more[k + 1] == if k + 1 < |run| then run[k + 1] else s;
    }
  }

  /** The state after one writer moved. */
  function Moved(s: State, i: nat, f: Files, pc: Pc): State
    requires i < |s.writers|
  {
    State(f, s.writers[i := s.writers[i].(pc := pc)])
  }

  lemma Move(h: Hash, run: seq<State>, i: nat, f: Files, pc: Pc) returns (more: seq<State>)
    requires Run(h, run)
    requires var s := run[|run| - 1];
             i < |s.writers| && WriterStep(h, s.files, s.writers[i], f, s.writers[i].(pc := pc))
    ensures Run(h, more) && more == run + [Moved(run[|run| - 1], i, f, pc)] && more[0] == run[0]
  {
    var s := run[|run| - 1];
    var t := Moved(s, i, f, pc);
    assert StepOf(h, s, t, i);
    ExtendRun(h, run, t);
    more := run + [t];
  }

  lemma {:induction false} UnusedFile(files: set<nat>) returns (n: nat)
    ensures forall x :: x in files ==> x < n
  {
    n := 0;
    if files != {} {
      var x :| x in files;
      var m := UnusedFile(files - {x});
      n := if m <= x then x + 1 else m;
      assert forall y :: y in files ==> y == x || y in files - {x};
    }
  }

  /** A writer opens its temporary. */
  lemma Open(h: Hash, run: seq<State>, i: nat) returns (more: seq<State>, file: nat)
    requires Run(h, run)
    requires var s := run[|run| - 1]; i < |s.writers| && s.writers[i].pc == Create
    ensures Run(h, more) && more[0] == run[0] && |more| == |run| + 1
    ensures var s, t := run[|run| - 1], more[|more| - 1]; var tmp := Temp(h, s.writers[i]);
            && t.writers == s.writers[i := s.writers[i].(pc := Append(file, 0))]
            && t.files.names == s.files.names[tmp := file] && t.files.data == s.files.data[file := []]
            && (tmp in s.files.names ==> file == s.files.names[tmp])
  {
    var s := run[|run| - 1];
    var tmp := Temp(h, s.writers[i]);
    if tmp in s.files.names {
      file := s.files.names[tmp];
      assert s.files.names[tmp := file] == s.files.names;
    } else {
      file := UnusedFile(s.files.data.Keys);
    }
    more := Move(h, run, i, Files(s.files.names[tmp := file], s.files.data[file := []]), Append(file, 0));
  }

  /** A writer writes all it has. */
  lemma WriteAll(h: Hash, run: seq<State>, i: nat, file: nat) returns (more: seq<State>)
    requires Run(h, run)
    requires var s := run[|run| - 1]; i < |s.writers| && s.writers[i].pc == Append(file, 0)
    ensures Run(h, more) && more[0] == run[0] && |more| >= |run| && more[..|run|] == run
    ensures var s, t := run[|run| - 1], more[|more| - 1]; var w := s.writers[i];
            && t.writers == s.writers[i := w.(pc := Append(file, |w.content|))]
            && t.files.names == s.files.names
  {
    var s := run[|run| - 1];
    var w := s.writers[i];
    if w.content == [] {
      more := run;
    } else {
      var data := s.files.data[file := WriteAt(Content(s.files, file), 0, w.content[0..|w.content|])];
      more := Move(h, run, i, s.files.(data := data), Append(file, |w.content|));
    }
  }

  /** Two writers of one digest that is not stored share one temporary. From any start with such a pair
    there is a run in which the second empties what the first is about to rename: in one state a reader
    finds an empty object under the digest, and in the last the second writer fails for want of its
    temporary. */
  lemma SharedTemporary(h: Hash, s: State, i: nat, j: nat) returns (run: seq<State>, k: nat)
    requires Start(h, s) && i < |s.writers| && j < |s.writers| && i != j
    requires h(s.writers[i].content) == h(s.writers[j].content) && Final(h, s.writers[i]) !in s.files.names
    ensures Run(h, run) && run[0] == s && k < |run|
    ensures |run[|run| - 1].writers| == |s.writers| && run[|run| - 1].writers[j].pc == Failed
    ensures Final(h, s.writers[i]) in Visible(run[k].files) && Visible(run[k].files)[Final(h, s.writers[i])] == []
  {
    var fin, tmp := Final(h, s.writers[i]), Temp(h, s.writers[i]);
    FinalNotTemp(h, s.writers[i], s.writers[i]);
    run := Move(h, [s], i, s.files, Create);
    run := Move(h, run, j, s.files, Create);
    var first, second: nat;
    run, first := Open(h, run, i);
    run := WriteAll(h, run, i, first);
    run, second := Open(h, run, j);
    assert second == first;
    var f := run[|run| - 1].files;
    run := Move(h, run, i, f.(names := (f.names - {tmp})[fin := f.names[tmp]]), Finished);
    k := |run| - 1;
    assert Visible(run[k].files)[fin] == [];
    var before := run;
    run := WriteAll(h, run, j, second);
    assert run[k] == before[k];
    run := Move(h, run, j, run[|run| - 1].files, Failed);
  }

  /** Any number of writers are safe, in every run there is, exactly when those that share a digest put
    what is stored already. Which that is can be told before the first put. */
  lemma SafeExactly(h: Hash, s: State)
    requires Start(h, s)
    ensures (forall run :: Run(h, run) && run[0] == s ==> SafeRun(h, run)) <==> Uncontested(h, s)
  {
    if Uncontested(h, s) {
      forall run | Run(h, run) && run[0] == s ensures SafeRun(h, run) {
        UncontestedRunSafe(h, run);
      }
    } else {
      var i, j :| 0 <= i < j < |s.writers| && h(s.writers[i].content) == h(s.writers[j].content)
                  && Final(h, s.writers[i]) !in s.files.names;
      var run, k := SharedTemporary(h, s, i, j);
      var last := |run| - 1;
      assert run[last].writers[j].pc == Failed;
    }
  }

  lemma UncontestedRunSafe(h: Hash, run: seq<State>)
    requires Run(h, run) && Start(h, run[0]) && Uncontested(h, run[0])
    ensures SafeRun(h, run)
  {
    hide Run, Start, Uncontested, ObjectsSound, ObjectsKept, WriterInv;
    forall i, j | 0 <= i <= j < |run| ensures ObjectsSound(h, run[j].files) && ObjectsKept(run[i].files, run[j].files) {
      RunSafe(h, run, i, j);
    }
    forall k, i | 0 <= k < |run| && 0 <= i < |run[k].writers| ensures run[k].writers[i].pc != Failed {
      RunSafe(h, run, k, k);
      assert WriterInv(h, run[k].files, run[k].writers[i]);
      NotFailed(h, run[k].files, run[k].writers[i]);
    }
  }

  lemma NotFailed(h: Hash, f: Files, w: Writer)
    requires WriterInv(h, f, w)
    ensures w.pc != Failed
  {
  }
}
