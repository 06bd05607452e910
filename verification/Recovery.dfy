/** The server's locked sections and the save after every command, as steps that a crash may
    separate (server.go, persist.go). */
module Recovery {
  import opened Wrappers
  import opened Seqs
  import opened Evaluator
  import opened Commands
  import opened History
  import opened Snapshots

  /** Where the handler of a command stands. Queries and other commands wait until it is
      Idle again. A server whose file cannot be opened is Down. */
  datatype Phase = Idle | Ingested | TmpWritten | Renamed | Down

  /** A file of the disk: absent, cut off in the middle of a write, or a whole snapshot. */
  datatype File = Absent | Torn | Snapshot(db: Db)

  /** An accepted command, whether its client was told of success, and whether a crash has
      taken it back. */
  datatype Entry = Entry(a: Accepted, acked: bool, lost: bool)

  /** The process, the disk, and what happened so far. Entries before `saved` were part of
      the last save. */
  datatype System = System(
    mem: Db, phase: Phase, file: File, tmp: File, history: seq<Entry>, saved: nat)

  datatype Event =
    | Receive(cmd: Command)     // Ingest under the lock; a rejected command is answered at once
    | SnapshotFails             // the store cannot be encoded; the client gets an error
    | WriteTmp                  // the temporary file is written
    | WriteFails(partial: bool) // it is not, or not entirely; the client gets an error
    | Rename                    // the temporary file takes the place of the old one
    | RenameFails               // the temporary file is removed; the client gets an error
    | Answer                    // the client is told of success, the lock is released
    | Crash(torn: bool)         // the process ends anywhere, perhaps while it writes, and is started again

  /** Open: a missing file gives an empty store, a document nested too deeply is refused. */
  function Opened(file: File): Option<Db> {
    match file
    case Absent => Some(map[])
    case Torn => None
    case Snapshot(db) => if Loads(db) then Some(db) else None
  }

  /** What is in a file, whether or not it can be opened. */
  function InFile(file: File): Db {
    if file.Snapshot? then file.db else map[]
  }

  /** A crash takes back what came after the last save. */
  function Lose(history: seq<Entry>, saved: nat): (h: seq<Entry>)
    ensures |h| == |history|
  {
    seq(|history|, i requires 0 <= i < |history| =>
      if i < saved then history[i] else history[i].(lost := true))
  }

  ghost function Received(s: System, a: Accepted): System {
    s.(mem := Apply(s.mem, a), phase := Ingested, history := s.history + [Entry(a, false, false)])
  }

  function Written(s: System): System {
    s.(tmp := Snapshot(RereadDb(s.mem)), phase := TmpWritten)
  }

  function Saved(s: System): System {
    s.(file := s.tmp, tmp := Absent, phase := Renamed, saved := |s.history|)
  }

  function Answered(s: System): System
    requires s.history != []
  {
    var n := |s.history| - 1;
    s.(phase := Idle, history := s.history[..n] + [s.history[n].(acked := true)])
  }

  /** The new process opens the file; nothing else is left of the old one but the disk. */
  function Restarted(s: System, torn: bool): System
    requires Opened(s.file).Some?
  {
    var tmp := if torn && s.phase == Ingested then Torn else s.tmp;
    s.(mem := Opened(s.file).value, phase := Idle, tmp := tmp, history := Lose(s.history, s.saved))
  }

  /** The new process cannot open the file, and no later one can. */
  function Refused(s: System): System {
    s.(mem := map[], phase := Down, history := Lose(s.history, s.saved))
  }

  /** One step; an event that cannot happen in this phase changes nothing. */
  ghost function Step(s: System, ev: Event): System {
    match (ev, s.phase)
    case (Receive(cmd), Idle) => if Accept(cmd).Ok? then Received(s, Accept(cmd).value) else s
    case (SnapshotFails, Ingested) => s.(phase := Idle)
    case (WriteTmp, Ingested) => Written(s)
    case (WriteFails(partial), Ingested) => s.(tmp := if partial then Torn else s.tmp, phase := Idle)
    case (Rename, TmpWritten) => Saved(s)
    case (RenameFails, TmpWritten) => s.(tmp := Absent, phase := Idle)
    case (Answer, Renamed) => if s.history == [] then s else Answered(s)
    case (Crash(torn), _) => if Opened(s.file).None? then Refused(s) else Restarted(s, torn)
    case _ => s
  }

  /** The server opens a path at which nothing was saved yet. */
  function Start(): System {
    System(map[], Idle, Absent, Absent, [], 0)
  }

  ghost function Steps(events: seq<Event>): System {
    if events == [] then Start() else Step(Steps(events[..|events| - 1]), events[|events| - 1])
  }

  // ----- what the history says the store is -----

  /** The commands that no crash took back. */
  function Surviving(history: seq<Entry>): seq<Accepted> {
    if history == [] then []
    else
      var n := |history| - 1;
      Surviving(history[..n]) + if history[n].lost then [] else [history[n].a]
  }

  ghost function Rebuilt(history: seq<Entry>): Db {
    ApplyAll(map[], Surviving(history))
  }

  lemma SurvivingSnoc(history: seq<Entry>, e: Entry)
    ensures Surviving(history + [e]) == Surviving(history) + if e.lost then [] else [e.a]
  {
    assert (history + [e])[..|history|] == history;
  }

  lemma {:induction false} SurvivingAfterLoss(history: seq<Entry>, saved: nat)
    requires saved <= |history|
    ensures Surviving(Lose(history, saved)) == Surviving(history[..saved])
    decreases |history|
  {
    if saved == |history| {
      assert Lose(history, saved) == history == history[..saved];
    } else {
      var n := |history| - 1;
      SurvivingAfterLoss(history[..n], saved);
      assert history[..n][..saved] == history[..saved];
      assert Lose(history, saved)[..n] == Lose(history[..n], saved);
      assert Surviving(history[..saved]) + [] == Surviving(history[..saved]);
    }
  }

  // ----- what every step keeps -----

  /** The memory holds every command that survives, failed saves included. */
  ghost predicate MemoryAgrees(s: System) {
    s.phase != Down ==> Alike(s.mem, Rebuilt(s.history))
  }

  /** The file is a whole snapshot: of the saved commands that survive. */
  ghost predicate FileAgrees(s: System) {
    && s.saved <= |s.history|
    && s.file != Torn
    && Alike(InFile(s.file), Rebuilt(s.history[..s.saved]))
  }

  /** Success was reported only for commands that are saved, and no crash took one back. */
  predicate AnswersKept(s: System) {
    forall i | 0 <= i < |s.history| && s.history[i].acked :: i < s.saved && !s.history[i].lost
  }

  /** The command being handled is the last one. */
  predicate PhaseAgrees(s: System) {
    && (s.phase != Idle && s.phase != Down ==> s.history != [] && !s.history[|s.history| - 1].lost)
    && (s.phase == TmpWritten ==> s.tmp == Snapshot(RereadDb(s.mem)))
    && (s.phase == Renamed ==> s.saved == |s.history|)
    && (s.phase == Down ==> Opened(s.file).None?)
  }

  ghost predicate Inv(s: System) {
    MemoryAgrees(s) && FileAgrees(s) && AnswersKept(s) && PhaseAgrees(s)
  }

  lemma ReceiveAgrees(mem: Db, history: seq<Entry>, a: Accepted)
    requires Alike(mem, Rebuilt(history))
    ensures Alike(Apply(mem, a), Rebuilt(history + [Entry(a, false, false)]))
  {
    SurvivingSnoc(history, Entry(a, false, false));
    ApplyAllSnoc(map[], Surviving(history), a);
    ApplyAlike(mem, Rebuilt(history), a);
  }

  lemma FileStays(s: System, t: System)
    requires FileAgrees(s) && t.file == s.file && t.saved == s.saved <= |t.history|
    requires t.history[..s.saved] == s.history[..s.saved]
    ensures FileAgrees(t)
  {
    hide ApplyAll;
  }

  lemma EntryKeeps(s: System, mem: Db, a: Accepted)
    requires Inv(s) && Alike(mem, Rebuilt(s.history + [Entry(a, false, false)]))
    ensures Inv(s.(mem := mem, phase := Ingested, history := s.history + [Entry(a, false, false)]))
  {
    hide ApplyAll;
    var t := s.(mem := mem, phase := Ingested, history := s.history + [Entry(a, false, false)]);
    assert t.history[..s.saved] == s.history[..s.saved];
    FileStays(s, t);
  }

  lemma ReceiveKeeps(s: System, a: Accepted)
    requires Inv(s) && s.phase == Idle
    ensures Inv(Received(s, a))
  {
    hide ApplyAll;
    ReceiveAgrees(s.mem, s.history, a);
    EntryKeeps(s, Apply(s.mem, a), a);
  }

  /** A snapshot of the memory stands for what the memory stands for. */
  lemma SnapshotAgrees(s: System)
    requires MemoryAgrees(s) && s.phase != Down
    ensures Alike(RereadDb(s.mem), Rebuilt(s.history))
  {
    RereadDbTwice(s.mem);
  }

  lemma SaveKeeps(s: System)
    requires Inv(s) && s.phase == TmpWritten
    ensures Inv(Saved(s))
  {
    hide ApplyAll;
    SnapshotAgrees(s);
    assert Saved(s).history[..Saved(s).saved] == s.history;
  }

  lemma AnswerSurvives(history: seq<Entry>)
    requires history != []
    ensures var n := |history| - 1;
            Surviving(history[..n] + [history[n].(acked := true)]) == Surviving(history)
  {
    var n := |history| - 1;
    SurvivingSnoc(history[..n], history[n].(acked := true));
  }

  lemma AnsweredIsRebuilt(s: System)
    requires s.history != []
    ensures Rebuilt(Answered(s).history) == Rebuilt(s.history)
  {
    AnswerSurvives(s.history);
  }

  lemma AnswerAgrees(s: System)
    requires Inv(s) && s.phase == Renamed
    ensures MemoryAgrees(Answered(s)) && FileAgrees(Answered(s))
  {
    hide ApplyAll;
    var after := Answered(s);
    AnsweredIsRebuilt(s);
    assert after.history[..s.saved] == after.history;
    assert s.history[..s.saved] == s.history;
  }

  lemma AnswerKeeps(s: System)
    requires Inv(s) && s.phase == Renamed
    ensures Inv(Answered(s))
  {
    hide ApplyAll;
    AnswerAgrees(s);
  }

  lemma CrashKeeps(s: System, torn: bool)
    requires Inv(s)
    ensures Opened(s.file).Some? ==> Inv(Restarted(s, torn))
    ensures Opened(s.file).None? ==> Inv(Refused(s))
  {
    hide ApplyAll;
    SurvivingAfterLoss(s.history, s.saved);
    assert Lose(s.history, s.saved)[..s.saved] == s.history[..s.saved];
  }

  lemma WriteKeeps(s: System)
    requires Inv(s) && s.phase == Ingested
    ensures Inv(Written(s))
  {
    hide ApplyAll;
  }

  /** An error answer only releases the lock: memory, file and history stay. */
  lemma FailureKeeps(s: System, tmp: File)
    requires Inv(s) && s.phase != Down
    ensures Inv(s.(tmp := tmp, phase := Idle))
  {
    hide ApplyAll;
  }

  lemma StepKeeps(s: System, ev: Event)
    requires Inv(s)
    ensures Inv(Step(s, ev))
  {
    hide ApplyAll;
    match (ev, s.phase)
    case (Receive(cmd), Idle) =>
      if Accept(cmd).Ok? {
        ReceiveKeeps(s, Accept(cmd).value);
      }
    case (SnapshotFails, Ingested) => FailureKeeps(s, s.tmp);
    case (WriteTmp, Ingested) => WriteKeeps(s);
    case (WriteFails(partial), Ingested) => FailureKeeps(s, if partial then Torn else s.tmp);
    case (Rename, TmpWritten) => SaveKeeps(s);
    case (RenameFails, TmpWritten) => FailureKeeps(s, Absent);
    case (Answer, Renamed) => AnswerKeeps(s);
    case (Crash(torn), _) => CrashKeeps(s, torn);
    case _ =>
  }

  lemma {:induction false} EveryRunKeeps(events: seq<Event>)
    ensures Inv(Steps(events))
    decreases |events|
  {
    if events != [] {
      EveryRunKeeps(events[..|events| - 1]);
      StepKeeps(Steps(events[..|events| - 1]), events[|events| - 1]);
    }
  }

  // ----- the history is an honest record -----

  /** t goes on from s: no entry is dropped or changed, no answer and no loss is taken back. */
  ghost predicate GoesOn(s: System, t: System) {
    && |s.history| <= |t.history|
    && forall i | 0 <= i < |s.history| ::
         && t.history[i].a == s.history[i].a
         && (s.history[i].acked ==> t.history[i].acked)
         && (s.history[i].lost ==> t.history[i].lost)
  }

  lemma StepGoesOn(s: System, ev: Event)
    ensures GoesOn(s, Step(s, ev))
  {
  }

  lemma GoesOnTwice(s: System, t: System, u: System)
    requires GoesOn(s, t) && GoesOn(t, u)
    ensures GoesOn(s, u)
  {
  }

  lemma StepsSnoc(events: seq<Event>, ev: Event)
    ensures Steps(events + [ev]) == Step(Steps(events), ev)
  {
    assert (events + [ev])[..|events|] == events;
  }

  lemma {:induction false} RunGoesOn(events: seq<Event>, more: seq<Event>)
    ensures GoesOn(Steps(events), Steps(events + more))
    decreases |more|
  {
    if more == [] {
      assert events + more == events;
    } else {
      var n := |more| - 1;
      RunGoesOn(events, more[..n]);
      assert events + more == (events + more[..n]) + [more[n]];
      StepsSnoc(events + more[..n], more[n]);
      StepGoesOn(Steps(events + more[..n]), more[n]);
      GoesOnTwice(Steps(events), Steps(events + more[..n]), Steps(events + more));
    }
  }

  /** A command answered with success is never taken back, whatever fails later. */
  lemma AnsweredStays(events: seq<Event>, more: seq<Event>, i: nat)
    requires i < |Steps(events).history| && Steps(events).history[i].acked
    ensures i < |Steps(events + more).history|
    ensures Steps(events + more).history[i] == Steps(events).history[i] && !Steps(events).history[i].lost
    ensures i < Steps(events + more).saved
  {
    RunGoesOn(events, more);
    EveryRunKeeps(events);
    EveryRunKeeps(events + more);
  }

  // ----- recovery -----

  /** The store that the saved commands make of an empty one. */
  ghost function SavedStore(s: System): Db
    requires s.saved <= |s.history|
  {
    Rebuilt(s.history[..s.saved])
  }

  lemma OpensIff(s: System)
    requires FileAgrees(s)
    ensures Opened(s.file).Some? <==> Loads(SavedStore(s))
    ensures Opened(s.file).Some? ==> Alike(Opened(s.file).value, SavedStore(s))
  {
    hide Rebuilt, Alike;
    AlikeLoad(InFile(s.file), SavedStore(s));
  }

  /** Wherever the process ends, the file is a whole snapshot with every command answered with
      success in it. It is opened exactly when what the saved commands make of an empty store
      is not nested too deeply, and the reopened store is that. */
  lemma CrashRecovery(events: seq<Event>, torn: bool)
    ensures var s := Steps(events);
            && s.file != Torn && s.saved <= |s.history|
            && SavedStore(s) == ApplyAll(map[], Surviving(s.history[..s.saved]))
            && (Opened(s.file).Some? <==> Loads(SavedStore(s)))
            && (Opened(s.file).Some? ==> Alike(Restarted(s, torn).mem, SavedStore(s)))
            && forall i | 0 <= i < |s.history| && s.history[i].acked :: i < s.saved && !s.history[i].lost
  {
    EveryRunKeeps(events);
    OpensIff(Steps(events));
  }

  /** Commands in the order they were accepted. */
  function CommandsOf(history: seq<Entry>): seq<Accepted> {
    Map((e: Entry) => e.a, history)
  }

  lemma {:induction false} NoneLost(history: seq<Entry>)
    requires forall e | e in history :: !e.lost
    ensures Surviving(history) == CommandsOf(history)
    decreases |history|
  {
    if history != [] {
      var n := |history| - 1;
      NoneLost(history[..n]);
      SnocMap((e: Entry) => e.a, history, n);
      assert history[..n + 1] == history;
    }
  }

  lemma StepLosesNothing(s: System, ev: Event)
    requires !ev.Crash? && forall e | e in s.history :: !e.lost
    ensures forall e | e in Step(s, ev).history :: !e.lost
  {
  }

  lemma {:induction false} NoCrashNoLoss(events: seq<Event>)
    requires forall ev | ev in events :: !ev.Crash?
    ensures forall e | e in Steps(events).history :: !e.lost
    decreases |events|
  {
    if events != [] {
      NoCrashNoLoss(events[..|events| - 1]);
      StepLosesNothing(Steps(events[..|events| - 1]), events[|events| - 1]);
    }
  }

  /** The first crash of a run takes the store back to a prefix of the accepted commands that
      includes every one answered with success, if that prefix makes a store that can be
      opened. */
  lemma FirstCrashKeepsPrefix(events: seq<Event>, torn: bool)
    requires forall ev | ev in events :: !ev.Crash?
    ensures var s := Steps(events);
            && s.saved <= |s.history|
            && SavedStore(s) == ApplyAll(map[], CommandsOf(s.history)[..s.saved])
            && (Opened(s.file).Some? <==> Loads(SavedStore(s)))
            && (Opened(s.file).Some? ==> Alike(Restarted(s, torn).mem, SavedStore(s)))
            && forall i | 0 <= i < |s.history| && s.history[i].acked :: i < s.saved
  {
    hide Steps, SavedStore, Opened, Loads, Restarted, ApplyAll, Surviving, Alike;
    var s := Steps(events);
    CrashRecovery(events, torn);
    NoCrashNoLoss(events);
    NoneLost(s.history[..s.saved]);
    assert CommandsOf(s.history[..s.saved]) == CommandsOf(s.history)[..s.saved];
  }

  // ----- from one restart to the next -----

  lemma {:induction false} ApplyAllAlike(x: Db, y: Db, accepted: seq<Accepted>)
    requires Alike(x, y)
    ensures Alike(ApplyAll(x, accepted), ApplyAll(y, accepted))
    decreases |accepted|
  {
    hide Apply, Alike;
    if accepted != [] {
      var n := |accepted| - 1;
      ApplyAllAlike(x, y, accepted[..n]);
      ApplyAlike(ApplyAll(x, accepted[..n]), ApplyAll(y, accepted[..n]), accepted[n]);
    }
  }

  lemma {:induction false} ApplyAllInTwo(db: Db, xs: seq<Accepted>, ys: seq<Accepted>)
    ensures ApplyAll(db, xs + ys) == ApplyAll(ApplyAll(db, xs), ys)
    decreases |ys|
  {
    hide Apply;
    if ys == [] {
      assert xs + ys == xs;
    } else {
      var n := |ys| - 1;
      ApplyAllInTwo(db, xs, ys[..n]);
      assert (xs + ys)[..|xs| + n] == xs + ys[..n];
    }
  }

  lemma NoCommands()
    ensures CommandsOf([]) == []
  {
  }

  lemma CommandsSnoc(history: seq<Entry>, e: Entry)
    ensures CommandsOf(history + [e]) == CommandsOf(history) + [e.a]
  {
    MapAppend((e: Entry) => e.a, history, [e]);
  }

  lemma {:induction false} SurvivingInTwo(xs: seq<Entry>, ys: seq<Entry>)
    requires forall e | e in ys :: !e.lost
    ensures Surviving(xs + ys) == Surviving(xs) + CommandsOf(ys)
    decreases |ys|
  {
    hide Surviving, CommandsOf;
    if ys == [] {
      NoCommands();
      assert xs + ys == xs && Surviving(xs) + [] == Surviving(xs);
    } else {
      var n, e := |ys| - 1, ys[|ys| - 1];
      SurvivingInTwo(xs, ys[..n]);
      SurvivingSnoc(xs + ys[..n], e);
      assert xs + ys == (xs + ys[..n]) + [e];
      CommandsSnoc(ys[..n], e);
      assert ys == ys[..n] + [e];
      assert Surviving(xs) + (CommandsOf(ys[..n]) + [e.a]) == (Surviving(xs) + CommandsOf(ys[..n])) + [e.a];
    }
  }

  /** s has come from the restarted system r without another crash. */
  ghost predicate Since(r: System, s: System) {
    && |r.history| <= |s.history| && s.history[..|r.history|] == r.history
    && (forall i | |r.history| <= i < |s.history| :: !s.history[i].lost)
    && (s.saved == r.saved || |r.history| <= s.saved)
    && (s.phase != Idle ==> |r.history| < |s.history|)
  }

  lemma StepIsSince(r: System, s: System, ev: Event)
    requires Since(r, s) && !ev.Crash?
    ensures Since(r, Step(s, ev))
  {
    hide Apply, Accept, RereadDb;
  }

  lemma {:induction false} RunIsSince(r: System, events: seq<Event>, more: seq<Event>)
    requires Since(r, Steps(events)) && forall ev | ev in more :: !ev.Crash?
    ensures Since(r, Steps(events + more))
    decreases |more|
  {
    hide Since, Step;
    if more == [] {
      assert events + more == events;
    } else {
      var n := |more| - 1;
      RunIsSince(r, events, more[..n]);
      assert events + more == (events + more[..n]) + [more[n]];
      StepsSnoc(events + more[..n], more[n]);
      StepIsSince(r, Steps(events + more[..n]), more[n]);
    }
  }

  /** The commands accepted since r that are part of the last save. */
  function SavedSince(r: System, s: System): seq<Accepted>
    requires |r.history| <= |s.history| && s.saved <= |s.history|
  {
    CommandsOf(s.history[|r.history|..])[..if s.saved > |r.history| then s.saved - |r.history| else 0]
  }

  /** What the saved commands make of an empty store, the restarted store and the commands
      saved since make too. */
  lemma RebuiltSince(r: System, s: System)
    requires Since(r, s) && Alike(r.mem, Rebuilt(r.history)) && s.saved <= |s.history|
    requires r.saved <= |r.history| && Surviving(r.history[..r.saved]) == Surviving(r.history)
    ensures Alike(Rebuilt(s.history[..s.saved]), ApplyAll(r.mem, SavedSince(r, s)))
  {
    hide ApplyAll, Alike, Surviving;
    var n := |r.history|;
    if s.saved <= n {
      assert SavedSince(r, s) == [];
      assert s.history[..s.saved] == r.history[..s.saved];
      assert r.history[..n] == r.history;
      NothingApplied(r.mem);
      AlikeIsSymmetric(r.mem, Rebuilt(r.history));
    } else {
      var since := s.history[n..s.saved];
      assert s.history[..s.saved] == r.history + since;
      assert CommandsOf(since) == SavedSince(r, s);
      SurvivingInTwo(r.history, since);
      ApplyAllInTwo(map[], Surviving(r.history), CommandsOf(since));
      ApplyAllAlike(r.mem, Rebuilt(r.history), CommandsOf(since));
      AlikeIsSymmetric(ApplyAll(r.mem, CommandsOf(since)), ApplyAll(Rebuilt(r.history), CommandsOf(since)));
    }
  }

  lemma NothingApplied(db: Db)
    ensures ApplyAll(db, []) == db
  {
  }

  lemma AlikeIsSymmetric(x: Db, y: Db)
    requires Alike(x, y)
    ensures Alike(y, x)
  {
  }

  lemma AlikeTwice(x: Db, y: Db, z: Db)
    requires Alike(x, y) && Alike(y, z)
    ensures Alike(x, z)
  {
  }

  lemma RestartIsSince(s: System, torn: bool)
    requires Inv(s) && Opened(s.file).Some?
    ensures var r := Restarted(s, torn);
            && Inv(r) && Since(r, r) && Surviving(r.history[..r.saved]) == Surviving(r.history)
  {
    hide ApplyAll;
    CrashKeeps(s, torn);
    SurvivingAfterLoss(s.history, s.saved);
    var r := Restarted(s, torn);
    assert r.history[..r.saved] == s.history[..s.saved];
    assert r.history[..|r.history|] == r.history;
  }

  lemma CrashStep(s: System, torn: bool)
    requires Opened(s.file).Some?
    ensures Step(s, Crash(torn)) == Restarted(s, torn)
  {
  }

  /** From any restart to the next, the reopened store, if the file can be opened, is the
      previously reopened one plus a prefix of the commands accepted in between, which includes
      every one answered with success. */
  lemma EveryCrashKeepsPrefix(events: seq<Event>, torn: bool, more: seq<Event>, again: bool)
    requires Opened(Steps(events).file).Some? && forall ev | ev in more :: !ev.Crash?
    ensures var r, s := Restarted(Steps(events), torn), Steps(events + [Crash(torn)] + more);
            && |r.history| <= |s.history| && s.saved <= |s.history|
            && SavedSince(r, s) <= CommandsOf(s.history[|r.history|..])
            && (Opened(s.file).Some? <==> Loads(ApplyAll(r.mem, SavedSince(r, s))))
            && (Opened(s.file).Some? ==> Alike(Restarted(s, again).mem, ApplyAll(r.mem, SavedSince(r, s))))
            && forall i | |r.history| <= i < |s.history| && s.history[i].acked :: i - |r.history| < |SavedSince(r, s)|
  {
    hide ApplyAll, Alike, Surviving, Step, Steps, Loads;
    EveryRunKeeps(events);
    EveryRunKeeps(events + [Crash(torn)] + more);
    var r, s := Restarted(Steps(events), torn), Steps(events + [Crash(torn)] + more);
    RestartIsSince(Steps(events), torn);
    StepsSnoc(events, Crash(torn));
    CrashStep(Steps(events), torn);
    RunIsSince(r, events + [Crash(torn)], more);
    RebuiltSince(r, s);
    OpensIff(s);
    AlikeLoad(SavedStore(s), ApplyAll(r.mem, SavedSince(r, s)));
    if Opened(s.file).Some? {
      AlikeTwice(Restarted(s, again).mem, SavedStore(s), ApplyAll(r.mem, SavedSince(r, s)));
    }
  }

  // ----- a save that goes through -----

  lemma HandledStep(s: System, cmd: Command)
    requires s.phase == Idle && Accept(cmd).Ok?
    ensures Step(s, Receive(cmd)) == Received(s, Accept(cmd).value)
  {
  }

  lemma SavedSteps(s: System)
    requires s.phase == Ingested && s.history != []
    ensures Step(s, WriteTmp) == Written(s)
    ensures Step(Written(s), Rename) == Saved(Written(s))
    ensures Step(Saved(Written(s)), Answer) == Answered(Saved(Written(s)))
  {
  }

  /** A command whose save goes through is saved and answered. */
  lemma HandledIsSaved(events: seq<Event>, cmd: Command)
    requires Steps(events).phase == Idle && Accept(cmd).Ok?
    ensures var s := Steps(events + [Receive(cmd)] + [WriteTmp] + [Rename] + [Answer]);
            && s.phase == Idle && s.saved == |s.history| == |Steps(events).history| + 1
            && s.history[s.saved - 1] == Entry(Accept(cmd).value, true, false)
  {
    var received := Received(Steps(events), Accept(cmd).value);
    StepsSnoc(events, Receive(cmd));
    HandledStep(Steps(events), cmd);
    SavedSteps(received);
    StepsSnoc(events + [Receive(cmd)], WriteTmp);
    StepsSnoc(events + [Receive(cmd)] + [WriteTmp], Rename);
    StepsSnoc(events + [Receive(cmd)] + [WriteTmp] + [Rename], Answer);
    assert Steps(events + [Receive(cmd)] + [WriteTmp] + [Rename] + [Answer]) == Answered(Saved(Written(received)));
  }
}
