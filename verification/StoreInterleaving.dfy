/** internal/storage/store.go system call by system call: any number of Puts, Prunes, Deletes and Sweeps
    over any keys, interleaved under the per-key mutexes, with a crash of the process possible at any point. */
module StoreInterleaving {
  import opened Common

  type Bytes = seq<int>
  type Pid = nat

  /** The two names a revision can have on disk. */
  datatype Name = Final(rev: string) | Temp(rev: string)

  datatype File = File(key: Key, name: Name)

  datatype Kind = Prune | Delete | Sweep

  /** A Put is blind when its Stat of the final file failed, which reads as "not there". */
  datatype Proc =
    | PutWaiting(key: Key, rev: string, bytes: Bytes)
    | PutStat(key: Key, rev: string, bytes: Bytes)
    | PutHashing(key: Key, rev: string, got: Bytes)
    | PutWriting(key: Key, rev: string, bytes: Bytes, n: nat, blind: bool)
    | PutRenaming(key: Key, rev: string, bytes: Bytes, blind: bool)
    | PutCleaning(key: Key, rev: string)
    | PutDone(key: Key, rev: string, digestOf: Bytes)
    | PutFailed(key: Key)
    | RemovalWaiting(key: Key, kind: Kind)
    | RemovalLocked(key: Key, kind: Kind)
    | Removing(key: Key, kind: Kind, todo: set<Name>)
  {
    predicate Locked() { !PutWaiting? && !RemovalWaiting? }

    /** A Put that owns revision r's temporary file of key k. */
    predicate Owns(k: Key, r: string) {
      (PutWriting? || PutRenaming?) && key == k && rev == r
    }
  }

  /** started remembers every Put ever begun; no step reads it. */
  datatype State = State(files: map<File, Bytes>, holder: map<Key, Pid>, procs: map<Pid, Proc>,
                         started: set<(Key, string, Bytes)>)

  datatype Action =
    | StartPut(key: Key, rev: string, bytes: Bytes)
    | StartRemoval(key: Key, kind: Kind)
    | Lock
    | Stat
    | StatFails
    | CreateFails
    | HashSome(n: nat)
    | HashFails
    | WriteSome(n: nat)
    | WriteFails
    | Close
    | Rename
    | RenameFails
    | Clean(removed: bool)
    | Plan(todo: set<Name>)
    | RemoveOne(name: Name, removed: bool)
    | Return
    | Crash

  const EMPTY := State(map[], map[], map[], {})

  ghost predicate Plannable(s: State, key: Key, kind: Kind, todo: set<Name>) {
    forall n <- todo :: File(key, n) in s.files && (kind.Prune? ==> n.Final?) && (kind.Sweep? ==> n.Temp?)
  }

  ghost predicate Enabled(s: State, p: Pid, a: Action) {
    if a.Crash? then true
    else if a.StartPut? || a.StartRemoval? then p !in s.procs
    else if p !in s.procs then false
    else
      var q := s.procs[p];
      match a
      case Lock => !q.Locked() && q.key !in s.holder
      case Stat => q.PutStat?
      case StatFails => q.PutStat?
      case CreateFails => q.PutStat?
      case HashSome(n) => q.PutHashing? && File(q.key, Final(q.rev)) in s.files &&
                          |q.got| + n <= |s.files[File(q.key, Final(q.rev))]|
      case HashFails => q.PutHashing?
      case WriteSome(n) => q.PutWriting? && q.n + n <= |q.bytes|
      case WriteFails => q.PutWriting?
      case Close => q.PutWriting? && q.n == |q.bytes|
      case Rename => q.PutRenaming? && File(q.key, Temp(q.rev)) in s.files
      case RenameFails => q.PutRenaming?
      case Clean(_) => q.PutCleaning?
      case Plan(todo) => q.RemovalLocked? && Plannable(s, q.key, q.kind, todo)
      case RemoveOne(name, _) => q.Removing? && name in q.todo
      case Return => q.PutDone? || q.PutFailed? || q.Removing?
      case _ => false
  }

  function Become(s: State, p: Pid, q: Proc): State { s.(procs := s.procs[p := q]) }

  function Do(s: State, p: Pid, a: Action): State
    requires Enabled(s, p, a)
  {
    if a.Crash? then State(s.files, map[], map[], s.started)
    else if a.StartPut? then
      Become(s, p, PutWaiting(a.key, a.rev, a.bytes)).(started := s.started + {(a.key, a.rev, a.bytes)})
    else if a.StartRemoval? then Become(s, p, RemovalWaiting(a.key, a.kind))
    else
      var q := s.procs[p];
      match a
      case Lock =>
        Become(s, p, if q.PutWaiting? then PutStat(q.key, q.rev, q.bytes) else RemovalLocked(q.key, q.kind))
          .(holder := s.holder[q.key := p])
      case Stat =>
        if File(q.key, Final(q.rev)) in s.files then Become(s, p, PutHashing(q.key, q.rev, []))
        else
          Become(s, p, PutWriting(q.key, q.rev, q.bytes, 0, false))
            .(files := s.files[File(q.key, Temp(q.rev)) := []])
      case StatFails =>
        Become(s, p, PutWriting(q.key, q.rev, q.bytes, 0, true)).(files := s.files[File(q.key, Temp(q.rev)) := []])
      case CreateFails => Become(s, p, PutCleaning(q.key, q.rev))
      case HashSome(n) =>
        var all := s.files[File(q.key, Final(q.rev))];
        var got := all[..|q.got| + n];
        Become(s, p, if got == all then PutDone(q.key, q.rev, got) else PutHashing(q.key, q.rev, got))
      case HashFails => Become(s, p, PutFailed(q.key))
      case WriteSome(n) =>
        Become(s, p, q.(n := q.n + n)).(files := s.files[File(q.key, Temp(q.rev)) := q.bytes[..q.n + n]])
      case WriteFails => Become(s, p, PutCleaning(q.key, q.rev))
      case Close => Become(s, p, PutRenaming(q.key, q.rev, q.bytes, q.blind))
      case Rename =>
        var tmp := File(q.key, Temp(q.rev));
        Become(s, p, PutDone(q.key, q.rev, q.bytes))
          .(files := (s.files - {tmp})[File(q.key, Final(q.rev)) := s.files[tmp]])
      case RenameFails => Become(s, p, PutCleaning(q.key, q.rev))
      case Clean(removed) =>
        Become(s, p, PutFailed(q.key))
          .(files := if removed then s.files - {File(q.key, Temp(q.rev))} else s.files)
      case Plan(todo) => Become(s, p, Removing(q.key, q.kind, todo))
      case RemoveOne(name, removed) =>
        Become(s, p, q.(todo := q.todo - {name}))
          .(files := if removed then s.files - {File(q.key, name)} else s.files)
      case Return => s.(procs := s.procs - {p}, holder := s.holder - {q.key})
  }

  // -- the invariant -----------------------------------------------------------

  ghost predicate LocksHeld(s: State) {
    && (forall k <- s.holder.Keys ::
        s.holder[k] in s.procs && s.procs[s.holder[k]].Locked() && s.procs[s.holder[k]].key == k)
    && (forall p <- s.procs.Keys :: s.procs[p].Locked() ==> s.procs[p].key in s.holder && s.holder[s.procs[p].key] == p)
  }

  ghost predicate ProcOk(s: State, q: Proc) {
    match q
    case PutWaiting(k, r, b) => (k, r, b) in s.started
    case PutStat(k, r, b) => (k, r, b) in s.started
    case PutHashing(k, r, got) => File(k, Final(r)) in s.files && got <= s.files[File(k, Final(r))]
    case PutWriting(k, r, b, n, blind) =>
      && (k, r, b) in s.started && n <= |b|
      && File(k, Temp(r)) in s.files && s.files[File(k, Temp(r))] == b[..n]
      && (blind || File(k, Final(r)) !in s.files)
    case PutRenaming(k, r, b, blind) =>
      && (k, r, b) in s.started
      && File(k, Temp(r)) in s.files && s.files[File(k, Temp(r))] == b
      && (blind || File(k, Final(r)) !in s.files)
    case PutDone(k, r, d) => File(k, Final(r)) in s.files && s.files[File(k, Final(r))] == d
    case Removing(k, kind, todo) => Plannable(s, k, kind, todo)
    case _ => true
  }

  /** A visible tarball holds all the bytes of some Put of that very revision. */
  ghost predicate VisibleComplete(s: State) {
    forall f <- s.files.Keys :: f.name.Final? ==> (f.key, f.name.rev, s.files[f]) in s.started
  }

  ghost predicate Inv(s: State) {
    && LocksHeld(s)
    && VisibleComplete(s)
    && forall p <- s.procs.Keys :: ProcOk(s, s.procs[p])
  }

  lemma LocksKeptByProgress(s: State, s': State, p: Pid, q: Proc)
    requires LocksHeld(s) && p in s.procs && s.procs[p].Locked() && q.Locked() && q.key == s.procs[p].key
    requires s'.holder == s.holder && s'.procs == s.procs[p := q]
    ensures LocksHeld(s')
  {
  }

  lemma LocksKeptByStart(s: State, s': State, p: Pid, q: Proc)
    requires LocksHeld(s) && p !in s.procs && !q.Locked() && s'.holder == s.holder && s'.procs == s.procs[p := q]
    ensures LocksHeld(s')
  {
  }

  lemma LocksKeptByLock(s: State, s': State, p: Pid, q: Proc)
    requires LocksHeld(s) && p in s.procs && !s.procs[p].Locked() && s.procs[p].key !in s.holder
    requires q.Locked() && q.key == s.procs[p].key
    requires s'.holder == s.holder[q.key := p] && s'.procs == s.procs[p := q]
    ensures LocksHeld(s')
  {
  }

  lemma LocksKeptByReturn(s: State, s': State, p: Pid)
    requires LocksHeld(s) && p in s.procs && s.procs[p].Locked()
    requires s'.holder == s.holder - {s.procs[p].key} && s'.procs == s.procs - {p}
    ensures LocksHeld(s')
  {
  }

  /** What a step under the lock leaves: the same key, still locked. */
  lemma ProgressOf(s: State, p: Pid, a: Action)
    requires Enabled(s, p, a) && !a.Crash? && !a.StartPut? && !a.StartRemoval? && !a.Lock? && !a.Return?
    ensures p in s.procs && p in Do(s, p, a).procs
    ensures var q, q', s' := s.procs[p], Do(s, p, a).procs[p], Do(s, p, a);
            q.Locked() && q'.Locked() && q'.key == q.key && s'.holder == s.holder && s'.procs == s.procs[p := q']
  {
  }

  lemma LocksKept(s: State, p: Pid, a: Action)
    requires LocksHeld(s) && Enabled(s, p, a)
    ensures LocksHeld(Do(s, p, a))
  {
    var s' := Do(s, p, a);
    match a
    case Crash =>
    case StartPut(k, r, b) => LocksKeptByStart(s, s', p, PutWaiting(k, r, b));
    case StartRemoval(k, kind) => LocksKeptByStart(s, s', p, RemovalWaiting(k, kind));
    case Lock => LocksKeptByLock(s, s', p, s'.procs[p]);
    case Return => LocksKeptByReturn(s, s', p);
    case _ =>
      ProgressOf(s, p, a);
      LocksKeptByProgress(s, s', p, s'.procs[p]);
  }

  /** A step changes f. */
  ghost predicate Writes(s: State, p: Pid, a: Action, f: File)
    requires Enabled(s, p, a)
  {
    var after := Do(s, p, a).files;
    (f in s.files) != (f in after) || (f in s.files && s.files[f] != after[f])
  }

  lemma WritesOwnKey(s: State, p: Pid, a: Action, f: File)
    requires Enabled(s, p, a) && Writes(s, p, a, f)
    ensures p in s.procs && s.procs[p].Locked() && s.procs[p].key == f.key
  {
  }

  /** Only the holder of a key's lock changes files under it. */
  lemma OnlyHolderWrites(s: State, p: Pid, a: Action, f: File)
    requires LocksHeld(s) && Enabled(s, p, a) && Writes(s, p, a, f)
    ensures f.key in s.holder && s.holder[f.key] == p
  {
    WritesOwnKey(s, p, a, f);
  }

  ghost predicate SameAt(s: State, s': State, f: File) {
    (f in s.files <==> f in s'.files) && (f in s.files ==> s.files[f] == s'.files[f])
  }

  lemma OkDependsOnOwnKey(s: State, s': State, q: Proc)
    requires ProcOk(s, q) && s.started <= s'.started
    requires q.Locked() ==> forall f: File {:trigger SameAt(s, s', f)} :: f.key == q.key ==> SameAt(s, s', f)
    ensures ProcOk(s', q)
  {
    if q.Locked() {
      forall f: File | f.key == q.key ensures f in s.files <==> f in s'.files
                                      ensures f in s.files ==> s.files[f] == s'.files[f]
      {
        assert SameAt(s, s', f);
      }
    }
  }

  lemma OthersStayOk(s: State, p: Pid, a: Action, o: Pid)
    requires Inv(s) && Enabled(s, p, a)
    requires o != p && o in Do(s, p, a).procs
    ensures o in s.procs && Do(s, p, a).procs[o] == s.procs[o] && ProcOk(Do(s, p, a), s.procs[o])
  {
    var s', q := Do(s, p, a), s.procs[o];
    assert ProcOk(s, q);
    if q.Locked() {
      forall f: File | f.key == q.key ensures SameAt(s, s', f) {
        if Writes(s, p, a, f) { OnlyHolderWrites(s, p, a, f); }
      }
    }
    OkDependsOnOwnKey(s, s', q);
  }

  lemma SelfStaysOk(s: State, p: Pid, a: Action)
    requires Inv(s) && Enabled(s, p, a) && p in Do(s, p, a).procs
    ensures ProcOk(Do(s, p, a), Do(s, p, a).procs[p])
  {
    if p in s.procs { assert ProcOk(s, s.procs[p]); }
  }

  lemma VisibleStaysComplete(s: State, p: Pid, a: Action)
    requires Inv(s) && Enabled(s, p, a)
    ensures VisibleComplete(Do(s, p, a))
  {
    if p in s.procs { assert ProcOk(s, s.procs[p]); }
  }

  lemma InvStep(s: State, p: Pid, a: Action)
    requires Inv(s) && Enabled(s, p, a)
    ensures Inv(Do(s, p, a))
  {
    LocksKept(s, p, a);
    VisibleStaysComplete(s, p, a);
    var s' := Do(s, p, a);
    forall o | o in s'.procs ensures ProcOk(s', s'.procs[o]) {
      if o == p { SelfStaysOk(s, p, a); } else { OthersStayOk(s, p, a, o); }
    }
  }

  // -- over whole runs ---------------------------------------------------------

  ghost predicate Run(states: seq<State>, who: seq<Pid>, what: seq<Action>) {
    && |states| == |who| + 1 == |what| + 1
    && states[0] == EMPTY
    && forall i :: 0 <= i < |who| ==>
        Enabled(states[i], who[i], what[i]) && states[i + 1] == Do(states[i], who[i], what[i])
  }

  lemma {:induction false} RunKeepsInv(states: seq<State>, who: seq<Pid>, what: seq<Action>, n: nat)
    requires Run(states, who, what) && n < |states|
    ensures Inv(states[n])
  {
    if n == 0 {
    } else {
      RunKeepsInv(states, who, what, n - 1);
      InvStep(states[n - 1], who[n - 1], what[n - 1]);
    }
  }

  /** In every state of every run each visible tarball is complete, whatever crashed before. */
  lemma VisibleAlwaysComplete(states: seq<State>, who: seq<Pid>, what: seq<Action>, n: nat, f: File)
    requires Run(states, who, what) && n < |states|
    requires f in states[n].files && f.name.Final?
    ensures (f.key, f.name.rev, states[n].files[f]) in states[n].started
  {
    RunKeepsInv(states, who, what, n);
  }

  /** A blind Put of other bytes moves its file over the visible one. */
  ghost predicate Overwrites(s: State, p: Pid, a: Action, f: File)
    requires Enabled(s, p, a)
  {
    && a.Rename? && s.procs[p].PutRenaming? && s.procs[p].blind
    && f == File(s.procs[p].key, Final(s.procs[p].rev)) && f in s.files && s.files[f] != s.procs[p].bytes
  }

  lemma OnlyRenameRewrites(s: State, p: Pid, a: Action, f: File)
    requires Enabled(s, p, a) && !a.Rename? && f.name.Final? && f in s.files && f in Do(s, p, a).files
    ensures Do(s, p, a).files[f] == s.files[f]
  {
  }

  /** A step that leaves a visible tarball visible changes its bytes iff it is such a move. */
  lemma BytesChangeIff(s: State, p: Pid, a: Action, f: File)
    requires Inv(s) && Enabled(s, p, a) && f.name.Final? && f in s.files && f in Do(s, p, a).files
    ensures Do(s, p, a).files[f] != s.files[f] <==> Overwrites(s, p, a, f)
  {
    if a.Rename? {
      assert ProcOk(s, s.procs[p]);
    } else {
      OnlyRenameRewrites(s, p, a, f);
    }
  }

  /** While a visible tarball exists and no blind Put moves other bytes over it, its bytes do not change. */
  lemma {:induction false} BytesNeverChange(states: seq<State>, who: seq<Pid>, what: seq<Action>, i: nat, j: nat,
                                            f: File)
    requires Run(states, who, what) && i <= j < |states| && f.name.Final?
    requires forall n :: i <= n <= j ==> f in states[n].files
    requires forall n :: i <= n < j ==> !Overwrites(states[n], who[n], what[n], f)
    ensures states[i].files[f] == states[j].files[f]
  {
    if i == j {
    } else {
      BytesNeverChange(states, who, what, i, j - 1, f);
      RunKeepsInv(states, who, what, j - 1);
      assert states[j - 1 + 1] == Do(states[j - 1], who[j - 1], what[j - 1]);
      BytesChangeIff(states[j - 1], who[j - 1], what[j - 1], f);
    }
  }

  /** A revision names its bytes: no two Puts of it were ever started with different ones. */
  ghost predicate ContentAddressed(started: set<(Key, string, Bytes)>) {
    forall k, r, a, b :: (k, r, a) in started && (k, r, b) in started ==> a == b
  }

  lemma {:induction false} StartedGrows(states: seq<State>, who: seq<Pid>, what: seq<Action>, i: nat, j: nat)
    requires Run(states, who, what) && i <= j < |states|
    ensures states[i].started <= states[j].started
  {
    if i == j {
    } else {
      StartedGrows(states, who, what, i, j - 1);
      assert states[j - 1 + 1] == Do(states[j - 1], who[j - 1], what[j - 1]);
    }
  }

  /** What content addressing buys: a visible tarball shows the same bytes in any two states of any run, whatever was
      removed, put again, misread or crashed in between. */
  lemma VisibleBytesAreFixed(states: seq<State>, who: seq<Pid>, what: seq<Action>, i: nat, j: nat, f: File)
    requires Run(states, who, what) && i <= j < |states| && f.name.Final? && ContentAddressed(states[j].started)
    requires f in states[i].files && f in states[j].files
    ensures states[i].files[f] == states[j].files[f]
  {
    VisibleAlwaysComplete(states, who, what, i, f);
    VisibleAlwaysComplete(states, who, what, j, f);
    StartedGrows(states, who, what, i, j);
  }

  ghost predicate Follows(s: State, p: Pid, a: Action, t: State) { Enabled(s, p, a) && Do(s, p, a) == t }

  ghost predicate RunTo(states: seq<State>, who: seq<Pid>, what: seq<Action>, n: nat, last: State) {
    Run(states, who, what) && |what| == n && states[n] == last
  }

  /** A run, with the processes and the actions it is made of. */
  datatype Trace = Trace(states: seq<State>, who: seq<Pid>, what: seq<Action>)

  lemma Then(t: Trace, n: nat, last: State, p: Pid, a: Action, next: State) returns (t': Trace)
    requires RunTo(t.states, t.who, t.what, n, last) && Follows(last, p, a, next)
    ensures RunTo(t'.states, t'.who, t'.what, n + 1, next)
    ensures forall i :: 0 <= i <= n ==> t'.states[i] == t.states[i]
    ensures t'.who[n] == p && t'.what[n] == a
  {
    t' := Trace(t.states + [next], t.who + [p], t.what + [a]);
    forall i | 0 <= i < n
      ensures Enabled(t'.states[i], t'.who[i], t'.what[i])
      ensures t'.states[i + 1] == Do(t'.states[i], t'.who[i], t'.what[i])
    {
      assert t'.states[i] == t.states[i] && t'.states[i + 1] == t.states[i + 1];
      assert t'.who[i] == t.who[i] && t'.what[i] == t.what[i];
    }
  }

  /** The store with p alone at work on k. */
  ghost function Solo(files: map<File, Bytes>, started: set<(Key, string, Bytes)>, k: Key, p: Pid, q: Proc): State {
    State(files, map[k := p], map[p := q], started)
  }

  lemma PutEnters(files: map<File, Bytes>, started: set<(Key, string, Bytes)>, p: Pid, k: Key, r: string, bytes: Bytes)
    ensures var waiting := State(files, map[], map[p := PutWaiting(k, r, bytes)], started + {(k, r, bytes)});
      && Follows(State(files, map[], map[], started), p, StartPut(k, r, bytes), waiting)
      && Follows(waiting, p, Lock, Solo(files, started + {(k, r, bytes)}, k, p, PutStat(k, r, bytes)))
  {
  }

  lemma PutStats(files: map<File, Bytes>, started: set<(Key, string, Bytes)>, p: Pid, k: Key, r: string, bytes: Bytes)
    ensures var s, tmp := Solo(files, started, k, p, PutStat(k, r, bytes)), File(k, Temp(r));
      && (File(k, Final(r)) !in files ==>
          Follows(s, p, Stat, Solo(files[tmp := []], started, k, p, PutWriting(k, r, bytes, 0, false))))
      && Follows(s, p, StatFails, Solo(files[tmp := []], started, k, p, PutWriting(k, r, bytes, 0, true)))
  {
    assert bytes[..0] == [];
  }

  lemma PutWrites(files: map<File, Bytes>, started: set<(Key, string, Bytes)>, p: Pid, k: Key, r: string, bytes: Bytes,
                  blind: bool)
    ensures var tmp := File(k, Temp(r));
      var full := files[tmp := bytes];
      && Follows(Solo(files[tmp := []], started, k, p, PutWriting(k, r, bytes, 0, blind)), p, WriteSome(|bytes|),
                 Solo(full, started, k, p, PutWriting(k, r, bytes, |bytes|, blind)))
      && Follows(Solo(full, started, k, p, PutWriting(k, r, bytes, |bytes|, blind)), p, Close,
                 Solo(full, started, k, p, PutRenaming(k, r, bytes, blind)))
  {
    assert bytes[..|bytes|] == bytes;
    assert files[File(k, Temp(r)) := []][File(k, Temp(r)) := bytes] == files[File(k, Temp(r)) := bytes];
  }

  lemma PutRenames(files: map<File, Bytes>, started: set<(Key, string, Bytes)>, p: Pid, k: Key, r: string, bytes: Bytes,
                   blind: bool)
    requires File(k, Temp(r)) !in files
    ensures var tmp, f := File(k, Temp(r)), File(k, Final(r));
      && Follows(Solo(files[tmp := bytes], started, k, p, PutRenaming(k, r, bytes, blind)), p, Rename,
                 Solo(files[f := bytes], started, k, p, PutDone(k, r, bytes)))
      && Follows(Solo(files[f := bytes], started, k, p, PutDone(k, r, bytes)), p, Return,
                 State(files[f := bytes], map[], map[], started))
  {
    assert files[File(k, Temp(r)) := bytes] - {File(k, Temp(r))} == files;
  }

  /** A whole Put of these bytes by p, up to the moment before its rename, on a store nobody else is using. */
  lemma PutRuns(t: Trace, n: nat, files: map<File, Bytes>, started: set<(Key, string, Bytes)>, p: Pid, k: Key,
                r: string, bytes: Bytes, blind: bool)
    returns (t': Trace)
    requires RunTo(t.states, t.who, t.what, n, State(files, map[], map[], started))
    requires File(k, Temp(r)) !in files && (blind || File(k, Final(r)) !in files)
    ensures var after := started + {(k, r, bytes)};
      var s := Solo(files[File(k, Temp(r)) := bytes], after, k, p, PutRenaming(k, r, bytes, blind));
      RunTo(t'.states, t'.who, t'.what, n + 5, s)
  {
    var put, tmp, after := (k, r, bytes), File(k, Temp(r)), started + {(k, r, bytes)};
    PutEnters(files, started, p, k, r, bytes);
    PutStats(files, after, p, k, r, bytes);
    PutWrites(files, after, p, k, r, bytes, blind);
    t' := Then(t, n, State(files, map[], map[], started), p, StartPut(k, r, bytes),
               State(files, map[], map[p := PutWaiting(k, r, bytes)], after));
    t' := Then(t', n + 1, State(files, map[], map[p := PutWaiting(k, r, bytes)], after), p, Lock,
               Solo(files, after, k, p, PutStat(k, r, bytes)));
    var created := Solo(files[tmp := []], after, k, p, PutWriting(k, r, bytes, 0, blind));
    var written := Solo(files[tmp := bytes], after, k, p, PutWriting(k, r, bytes, |bytes|, blind));
    var stat := if blind then StatFails else Stat;
    t' := Then(t', n + 2, Solo(files, after, k, p, PutStat(k, r, bytes)), p, stat, created);
    t' := Then(t', n + 3, created, p, WriteSome(|bytes|), written);
    t' := Then(t', n + 4, written, p, Close, Solo(files[tmp := bytes], after, k, p, PutRenaming(k, r, bytes, blind)));
  }

  /** Two trees under one revision: after a complete Put of a, a Put of b whose Stat fails moves b over the visible
      a. */
  lemma MisreadStatOverwrites(k: Key, r: string, a: Bytes, b: Bytes) returns (t: Trace)
    requires a != b
    ensures Run(t.states, t.who, t.what) && |t.what| == 13
    ensures var f := File(k, Final(r));
      && f in t.states[12].files && t.states[12].files[f] == a && f in t.states[13].files && t.states[13].files[f] == b
      && Overwrites(t.states[12], t.who[12], t.what[12], f)
  {
    var f, tmp, one, two := File(k, Final(r)), File(k, Temp(r)), {} + {(k, r, a)}, {} + {(k, r, a)} + {(k, r, b)};
    t := PutRuns(Trace([EMPTY], [], []), 0, map[], {}, 0, k, r, a, false);
    PutRenames(map[], one, 0, k, r, a, false);
    var held, idle := Solo(map[f := a], one, k, 0, PutDone(k, r, a)), State(map[f := a], map[], map[], one);
    t := Then(t, 5, Solo(map[tmp := a], one, k, 0, PutRenaming(k, r, a, false)), 0, Rename, held);
    t := Then(t, 6, held, 0, Return, idle);
    t := PutRuns(t, 7, map[f := a], one, 1, k, r, b, true);
    PutRenames(map[f := a], two, 1, k, r, b, true);
    var ready := Solo(map[f := a][tmp := b], two, k, 1, PutRenaming(k, r, b, true));
    t := Then(t, 12, ready, 1, Rename, Solo(map[f := a][f := b], two, k, 1, PutDone(k, r, b)));
  }

  /** When a Put returns successfully the digest it reports is that of the bytes visible at that moment. */
  lemma ReturnedDigestIsVisible(states: seq<State>, who: seq<Pid>, what: seq<Action>, n: nat)
    requires Run(states, who, what) && n < |who| && what[n].Return?
    requires states[n].procs[who[n]].PutDone?
    ensures var q := states[n].procs[who[n]];
            var f := File(q.key, Final(q.rev));
            f in states[n + 1].files && states[n + 1].files[f] == q.digestOf
  {
    RunKeepsInv(states, who, what, n);
    assert ProcOk(states[n], states[n].procs[who[n]]);
  }

  /** Short of a crash, nothing another process does takes the temporary file of a running Put:
      no Sweep reaps it, and the rename finds it. */
  lemma RunningPutKeepsItsTemp(states: seq<State>, who: seq<Pid>, what: seq<Action>, n: nat, o: Pid, k: Key, r: string)
    requires Run(states, who, what) && n < |who|
    requires o in states[n].procs && (states[n].procs[o].PutWriting? || states[n].procs[o].PutRenaming?)
    requires states[n].procs[o].key == k && states[n].procs[o].rev == r
    requires who[n] != o && !what[n].Crash?
    ensures o in states[n + 1].procs && states[n + 1].procs[o] == states[n].procs[o]
    ensures File(k, Temp(r)) in states[n].files && File(k, Temp(r)) in states[n + 1].files
    ensures states[n].files[File(k, Temp(r))] == states[n + 1].files[File(k, Temp(r))]
  {
    RunKeepsInv(states, who, what, n);
    var s, p, a := states[n], who[n], what[n];
    assert s.procs[o].Owns(k, r) && ProcOk(s, s.procs[o]);
    OthersStayOk(s, p, a, o);
  }

  // -- what a process does when it is let alone -------------------------------------------

  /** p takes these steps from s to t, and nobody else takes any in between; others may be in the middle of theirs. */
  ghost predicate Alone(s: State, p: Pid, acts: seq<Action>, t: State)
    decreases |acts|
  {
    if acts == [] then s == t else Enabled(s, p, acts[0]) && Alone(Do(s, p, acts[0]), p, acts[1..], t)
  }

  lemma {:induction false} AloneThen(s: State, p: Pid, first: seq<Action>, m: State, then_: seq<Action>, t: State)
    requires Alone(s, p, first, m) && Alone(m, p, then_, t)
    ensures Alone(s, p, first + then_, t)
    decreases |first|
  {
    if first == [] {
      assert first + then_ == then_;
    } else {
      AloneThen(Do(s, p, first[0]), p, first[1..], m, then_, t);
      assert (first + then_)[1..] == first[1..] + then_;
    }
  }

  lemma AloneStep(s: State, p: Pid, acts: seq<Action>, m: State, a: Action, t: State) returns (acts': seq<Action>)
    requires Alone(s, p, acts, m) && Follows(m, p, a, t)
    ensures acts' == acts + [a] && Alone(s, p, acts', t)
  {
    acts' := acts + [a];
    assert Alone(t, p, [a][1..], t);
    AloneThen(s, p, acts, m, [a], t);
  }

  /** The state in which p holds the key and everything else is as in s. */
  ghost function Busy(s: State, p: Pid, key: Key, q: Proc, files: map<File, Bytes>): State {
    State(files, s.holder[key := p], s.procs[p := q], s.started)
  }

  lemma ReturnsAlone(s: State, p: Pid, acts: seq<Action>, t: State, key: Key, q: Proc, files: map<File, Bytes>)
    returns (acts': seq<Action>)
    requires p !in t.procs && key !in t.holder && q.key == key && (q.PutDone? || q.PutFailed? || q.Removing?)
    requires Alone(s, p, acts, Busy(t, p, key, q, files))
    ensures acts' == acts + [Return] && Alone(s, p, acts', t.(files := files))
  {
    var m := Busy(t, p, key, q, files);
    assert m.procs - {p} == t.procs && m.holder - {key} == t.holder;
    acts' := AloneStep(s, p, acts, m, Return, t.(files := files));
  }

  ghost function FilesNamed(key: Key, names: seq<Name>): set<File> { set n <- names :: File(key, n) }

  ghost function NamesIn(names: seq<Name>): set<Name> { set n <- names }

  ghost function Removals(names: seq<Name>): seq<Action> {
    seq(|names|, i requires 0 <= i < |names| => RemoveOne(names[i], true))
  }

  lemma NextRemoval(s: State, p: Pid, key: Key, kind: Kind, names: seq<Name>, n: nat)
    requires n < |names| && p in s.procs && s.procs[p] == Removing(key, kind, NamesIn(names[n..]))
    requires forall i, j :: 0 <= i < j < |names| ==> names[i] != names[j]
    ensures Enabled(s, p, RemoveOne(names[n], true))
    ensures Do(s, p, RemoveOne(names[n], true)) ==
        Become(s, p, Removing(key, kind, NamesIn(names[n + 1..]))).(files := s.files - {File(key, names[n])})
  {
    assert names[n..] == [names[n]] + names[n + 1..];
    assert NamesIn(names[n..]) - {names[n]} == NamesIn(names[n + 1..]);
  }

  ghost function Halfway(s: State, p: Pid, key: Key, kind: Kind, names: seq<Name>, n: nat): State
    requires n <= |names|
  {
    Busy(s, p, key, Removing(key, kind, NamesIn(names[n..])), s.files - FilesNamed(key, names[..n]))
  }

  lemma HalfwayNext(s: State, p: Pid, key: Key, kind: Kind, names: seq<Name>, n: nat)
    requires n < |names| && forall i, j :: 0 <= i < j < |names| ==> names[i] != names[j]
    ensures var m := Halfway(s, p, key, kind, names, n);
      Enabled(m, p, RemoveOne(names[n], true)) &&
      Do(m, p, RemoveOne(names[n], true)) == Halfway(s, p, key, kind, names, n + 1)
  {
    NextRemoval(Halfway(s, p, key, kind, names, n), p, key, kind, names, n);
    assert names[..n + 1] == names[..n] + [names[n]];
    assert FilesNamed(key, names[..n + 1]) == FilesNamed(key, names[..n]) + {File(key, names[n])};
  }

  lemma {:induction false} RemovesAll(s: State, p: Pid, key: Key, kind: Kind, names: seq<Name>, n: nat)
    requires n <= |names| && forall i, j :: 0 <= i < j < |names| ==> names[i] != names[j]
    ensures Alone(Halfway(s, p, key, kind, names, 0), p, Removals(names[..n]), Halfway(s, p, key, kind, names, n))
  {
    if n > 0 {
      RemovesAll(s, p, key, kind, names, n - 1);
      HalfwayNext(s, p, key, kind, names, n - 1);
      var acts := AloneStep(Halfway(s, p, key, kind, names, 0), p, Removals(names[..n - 1]),
                            Halfway(s, p, key, kind, names, n - 1), RemoveOne(names[n - 1], true),
                            Halfway(s, p, key, kind, names, n));
      assert acts == Removals(names[..n]);
    }
  }

  lemma RemovalStarts(s: State, p: Pid, key: Key, kind: Kind, names: seq<Name>)
    requires p !in s.procs && key !in s.holder && Plannable(s, key, kind, NamesIn(names))
    ensures Alone(s, p, [StartRemoval(key, kind), Lock, Plan(NamesIn(names))], Halfway(s, p, key, kind, names, 0))
  {
    var waiting := Do(s, p, StartRemoval(key, kind));
    var locked := Do(waiting, p, Lock);
    assert names[0..] == names && s.files - FilesNamed(key, names[..0]) == s.files;
    var acts := AloneStep(s, p, [], s, StartRemoval(key, kind), waiting);
    acts := AloneStep(s, p, acts, waiting, Lock, locked);
    acts := AloneStep(s, p, acts, locked, Plan(NamesIn(names)), Halfway(s, p, key, kind, names, 0));
    assert acts == [StartRemoval(key, kind), Lock, Plan(NamesIn(names))];
  }

  /** A removal that meets no failure takes exactly the files it planned to, and leaves no lock behind. */
  lemma RemovalRemoves(s: State, p: Pid, key: Key, kind: Kind, names: seq<Name>)
    requires p !in s.procs && key !in s.holder && Plannable(s, key, kind, NamesIn(names))
    requires forall i, j :: 0 <= i < j < |names| ==> names[i] != names[j]
    ensures Alone(s, p, [StartRemoval(key, kind), Lock, Plan(NamesIn(names))] + Removals(names) + [Return],
        s.(files := s.files - FilesNamed(key, names)))
  {
    var start, done := [StartRemoval(key, kind), Lock, Plan(NamesIn(names))], Halfway(s, p, key, kind, names, |names|);
    RemovalStarts(s, p, key, kind, names);
    RemovesAll(s, p, key, kind, names, |names|);
    assert names[..|names|] == names;
    AloneThen(s, p, start, Halfway(s, p, key, kind, names, 0), Removals(names), done);
    var acts := ReturnsAlone(s, p, start + Removals(names), s, key, Removing(key, kind, NamesIn(names[|names|..])),
                             s.files - FilesNamed(key, names));
  }

  ghost function Begun(s: State, key: Key, rev: string, bytes: Bytes): State {
    s.(started := s.started + {(key, rev, bytes)})
  }

  lemma EntersAlone(s: State, p: Pid, key: Key, rev: string, bytes: Bytes) returns (acts: seq<Action>)
    requires p !in s.procs && key !in s.holder
    ensures acts == [StartPut(key, rev, bytes), Lock]
    ensures Alone(s, p, acts, Busy(Begun(s, key, rev, bytes), p, key, PutStat(key, rev, bytes), s.files))
  {
    var waiting := Do(s, p, StartPut(key, rev, bytes));
    acts := AloneStep(s, p, [], s, StartPut(key, rev, bytes), waiting);
    acts := AloneStep(s, p, acts, waiting, Lock,
                      Busy(Begun(s, key, rev, bytes), p, key, PutStat(key, rev, bytes), s.files));
  }

  lemma ReadsThrough(t: State, p: Pid, key: Key, rev: string, bytes: Bytes, all: Bytes)
    requires File(key, Final(rev)) in t.files && t.files[File(key, Final(rev))] == all
    ensures Follows(Busy(t, p, key, PutStat(key, rev, bytes), t.files), p, Stat,
                    Busy(t, p, key, PutHashing(key, rev, []), t.files))
    ensures Follows(Busy(t, p, key, PutHashing(key, rev, []), t.files), p, HashSome(|all|),
                    Busy(t, p, key, PutDone(key, rev, all), t.files))
  {
    assert all[..|all|] == all;
  }

  /** Put again, a revision is read through and nothing is written, whatever bytes the caller has. */
  lemma RepublishReads(s: State, p: Pid, key: Key, rev: string, bytes: Bytes) returns (acts: seq<Action>)
    requires p !in s.procs && key !in s.holder && File(key, Final(rev)) in s.files
    ensures acts == [StartPut(key, rev, bytes), Lock, Stat, HashSome(|s.files[File(key, Final(rev))]|), Return]
    ensures Alone(s, p, acts, Begun(s, key, rev, bytes))
  {
    var all, t := s.files[File(key, Final(rev))], Begun(s, key, rev, bytes);
    ReadsThrough(t, p, key, rev, bytes, all);
    acts := EntersAlone(s, p, key, rev, bytes);
    acts := AloneStep(s, p, acts, Busy(t, p, key, PutStat(key, rev, bytes), s.files), Stat,
                      Busy(t, p, key, PutHashing(key, rev, []), s.files));
    acts := AloneStep(s, p, acts, Busy(t, p, key, PutHashing(key, rev, []), s.files), HashSome(|all|),
                      Busy(t, p, key, PutDone(key, rev, all), s.files));
    acts := ReturnsAlone(s, p, acts, t, key, PutDone(key, rev, all), s.files);
  }

  lemma WritesPart(t: State, p: Pid, key: Key, rev: string, bytes: Bytes, n: nat)
    requires n <= |bytes|
    ensures var tmp := File(key, Temp(rev));
      && Follows(Busy(t, p, key, PutStat(key, rev, bytes), t.files), p, StatFails,
                 Busy(t, p, key, PutWriting(key, rev, bytes, 0, true), t.files[tmp := []]))
      && Follows(Busy(t, p, key, PutWriting(key, rev, bytes, 0, true), t.files[tmp := []]), p, WriteSome(n),
                 Busy(t, p, key, PutWriting(key, rev, bytes, n, true), t.files[tmp := bytes[..n]]))
  {
    var tmp := File(key, Temp(rev));
    assert t.files[tmp := []][tmp := bytes[..n]] == t.files[tmp := bytes[..n]];
  }

  lemma CleansUp(t: State, p: Pid, key: Key, rev: string, bytes: Bytes, n: nat)
    requires n <= |bytes|
    ensures var tmp := File(key, Temp(rev));
      && Follows(Busy(t, p, key, PutWriting(key, rev, bytes, n, true), t.files[tmp := bytes[..n]]), p, WriteFails,
                 Busy(t, p, key, PutCleaning(key, rev), t.files[tmp := bytes[..n]]))
      && Follows(Busy(t, p, key, PutCleaning(key, rev), t.files[tmp := bytes[..n]]), p, Clean(true),
                 Busy(t, p, key, PutFailed(key), t.files - {tmp}))
  {
    var tmp := File(key, Temp(rev));
    assert t.files[tmp := bytes[..n]] - {tmp} == t.files - {tmp};
  }

  lemma FailingWrite(s: State, p: Pid, key: Key, rev: string, bytes: Bytes, n: nat) returns (acts: seq<Action>)
    requires p !in s.procs && key !in s.holder && n <= |bytes|
    ensures acts == [StartPut(key, rev, bytes), Lock, StatFails, WriteSome(n)]
    ensures Alone(s, p, acts, Busy(Begun(s, key, rev, bytes), p, key, PutWriting(key, rev, bytes, n, true),
                                   s.files[File(key, Temp(rev)) := bytes[..n]]))
  {
    var tmp, t := File(key, Temp(rev)), Begun(s, key, rev, bytes);
    WritesPart(t, p, key, rev, bytes, n);
    acts := EntersAlone(s, p, key, rev, bytes);
    var created := Busy(t, p, key, PutWriting(key, rev, bytes, 0, true), s.files[tmp := []]);
    acts := AloneStep(s, p, acts, Busy(t, p, key, PutStat(key, rev, bytes), s.files), StatFails, created);
    acts := AloneStep(s, p, acts, created, WriteSome(n),
                      Busy(t, p, key, PutWriting(key, rev, bytes, n, true), s.files[tmp := bytes[..n]]));
  }

  /** A Put whose write fails at any byte, and whose clean-up does not, leaves no temporary file. */
  lemma FailedPutCleansUp(s: State, p: Pid, key: Key, rev: string, bytes: Bytes, n: nat) returns (acts: seq<Action>)
    requires p !in s.procs && key !in s.holder && n <= |bytes|
    ensures acts == [StartPut(key, rev, bytes), Lock, StatFails, WriteSome(n), WriteFails, Clean(true), Return]
    ensures Alone(s, p, acts, Begun(s, key, rev, bytes).(files := s.files - {File(key, Temp(rev))}))
  {
    var tmp, t := File(key, Temp(rev)), Begun(s, key, rev, bytes);
    var part := s.files[tmp := bytes[..n]];
    CleansUp(t, p, key, rev, bytes, n);
    acts := FailingWrite(s, p, key, rev, bytes, n);
    acts := AloneStep(s, p, acts, Busy(t, p, key, PutWriting(key, rev, bytes, n, true), part), WriteFails,
                      Busy(t, p, key, PutCleaning(key, rev), part));
    acts := AloneStep(s, p, acts, Busy(t, p, key, PutCleaning(key, rev), part), Clean(true),
                      Busy(t, p, key, PutFailed(key), s.files - {tmp}));
    acts := ReturnsAlone(s, p, acts, t, key, PutFailed(key), s.files - {tmp});
  }
}
