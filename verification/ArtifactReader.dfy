/**
 * A reader beside the writer. Loading looks at the directory several times: it reads the manifest, then looks for the
 * file that the manifest names, then reads that file to take its digest, and then opens it once more to decode it. The
 * writer may act between any two of these looks.
 */
module ArtifactReader {
  import opened Outcomes
  import opened ByteStrings
  import opened ArtifactDirectory

  // ---------------------------------------------------------------- a load as it looks at the directory

  function ReadAt(files: Files, name: string): Option<Bytes> {
    if name in files then Some(files[name]) else None
  }

  /** What the looks at the named file found: whether it was there, the bytes that were digested, and the bytes that
      were read again to be decoded. A file that has gone by the time it is opened cannot be read. */
  datatype Looks = Looks(present: bool, digested: Option<Bytes>, reread: Option<Bytes>)

  /** The checks of a load on a parsed manifest, each on what its own look found. */
  function LoadLooks(codec: Codec, m: ManifestText, looks: Looks, trust: Trust): Result<Loaded, Refusal>
    requires m.Fields?
  {
    var name := ModelFileOf(m);
    if m.schema.Some? && m.schema.value != SCHEMA then Err(OtherSchema(m.schema.value))
    else if FormatOf(m) != "json" && FormatOf(m) != "pickle" then Err(UnknownFormat(FormatOf(m)))
    else if !PlainName(name) then Err(NotAPlainName(name))
    else if !looks.present then Err(ModelFileMissing(name))
    else if m.modelDigest.Some? && looks.digested.None? then Err(ModelUnreadable(name))
    else if m.modelDigest.Some? && codec.digest(looks.digested.value) != m.modelDigest.value then
      Err(DigestMismatch(m.modelDigest.value, codec.digest(looks.digested.value)))
    else if trust == SomethingElse then Err(AmbiguousTrust)
    else LoadOpened(codec, m, looks.reread, trust == ExactlyTrue)
  }

  /** The last look: a pickle is not even opened without trust. */
  function LoadOpened(codec: Codec, m: ManifestText, reread: Option<Bytes>, trusted: bool): Result<Loaded, Refusal>
    requires m.Fields?
  {
    if FormatOf(m) != "json" && !trusted then Err(PickleNeedsTrust)
    else if reread.None? then Err(ModelUnreadable(ModelFileOf(m)))
    else LoadBytes(codec, reread.value, m, trusted)
  }

  /** The directory at the four looks: reading the manifest, looking for the model file, digesting it, opening it. */
  datatype Moments<T> = Moments(manifest: T, present: T, digest: T, open: T)

  function LooksAt(at: Moments<Files>, name: string): Looks {
    Looks(name in at.present, ReadAt(at.digest, name), ReadAt(at.open, name))
  }

  function LoadOver(codec: Codec, at: Moments<Files>, trust: Trust): Result<Loaded, Refusal> {
    if MANIFEST !in at.manifest then Load(codec, at.manifest, trust)
    else
      match codec.parse(at.manifest[MANIFEST])
      case Unreadable => Err(ManifestUnreadable)
      case NotJson => Err(ManifestNotJson)
      case NotAnObject => Err(ManifestNotAnObject)
      case m => LoadLooks(codec, m, LooksAt(at, ModelFileOf(m)), trust)
  }

  /** A load that falls between two operations of the writer sees one directory, and is the load of that directory. */
  lemma UndisturbedLoad(codec: Codec, files: Files, trust: Trust)
    ensures LoadOver(codec, Moments(files, files, files, files), trust) == Load(codec, files, trust)
  {
    if MANIFEST in files && codec.parse(files[MANIFEST]).Fields? {
      var m := codec.parse(files[MANIFEST]);
      SameLooks(codec, files, m, trust);
      assert Load(codec, files, trust) == LoadNamed(codec, files, m, trust);
    }
  }

  lemma SameLooks(codec: Codec, files: Files, m: ManifestText, trust: Trust)
    requires m.Fields?
    ensures LoadLooks(codec, m, LooksAt(Moments(files, files, files, files), ModelFileOf(m)), trust) ==
      LoadNamed(codec, files, m, trust)
  {
  }

  // ---------------------------------------------------------------- under one deploy's manifest

  function OwnBytes(codec: Codec, job: Job): Bytes {
    ModelBytes(ChooseFormat(codec, job.model))
  }

  function OwnFile(codec: Codec, job: Job): string {
    ModelFile(ChooseFormat(codec, job.model))
  }

  /** What some bytes load as under a deploy's records. */
  function LoadAs(codec: Codec, job: Job, bytes: Bytes, trust: Trust): Result<Loaded, Refusal> {
    LoadBytes(codec, bytes, AsRead(ManifestOf(codec, job)), trust == ExactlyTrue)
  }

  /** The digested bytes are not mistaken for the deploy's own. */
  predicate NotMistaken(codec: Codec, job: Job, looks: Looks) {
    looks.digested.Some? ==> NoCollision(codec, looks.digested.value, OwnBytes(codec, job))
  }

  /** The looks at which a load under a deploy's manifest returns another model under that deploy's records: the digest
      was taken of the deploy's own bytes, and bytes that decode to something else were there when the file was opened
      again. */
  predicate Mixes(codec: Codec, job: Job, looks: Looks, trust: Trust) {
    looks.present && looks.digested == Some(OwnBytes(codec, job)) && trust != SomethingElse
    && looks.reread.Some? && LoadAs(codec, job, looks.reread.value, trust).Ok?
    && LoadAs(codec, job, looks.reread.value, trust) != LoadAs(codec, job, OwnBytes(codec, job), trust)
  }

  lemma LoadOwnLooks(codec: Codec, job: Job, looks: Looks, trust: Trust)
    requires !ChooseFormat(codec, job.model).NoForm? && NotMistaken(codec, job, looks)
    ensures var m := AsRead(ManifestOf(codec, job));
      LoadLooks(codec, m, looks, trust) ==
        if !looks.present then Err(ModelFileMissing(OwnFile(codec, job)))
        else if looks.digested.None? then Err(ModelUnreadable(OwnFile(codec, job)))
        else if looks.digested.value != OwnBytes(codec, job) then
          Err(DigestMismatch(codec.digest(OwnBytes(codec, job)), codec.digest(looks.digested.value)))
        else if trust == SomethingElse then Err(AmbiguousTrust)
        else LoadOpened(codec, m, looks.reread, trust == ExactlyTrue)
  {
    ModelFilesArePlain(ChooseFormat(codec, job.model));
    LooksUnderManifest(codec, ManifestOf(codec, job), looks, trust);
  }

  lemma LooksUnderManifest(codec: Codec, m: Manifest, looks: Looks, trust: Trust)
    requires m.schema == SCHEMA && (m.format == "json" || m.format == "pickle") && PlainName(m.modelFile)
    ensures LoadLooks(codec, AsRead(m), looks, trust) ==
      if !looks.present then Err(ModelFileMissing(m.modelFile))
      else if looks.digested.None? then Err(ModelUnreadable(m.modelFile))
      else if codec.digest(looks.digested.value) != m.modelDigest then
        Err(DigestMismatch(m.modelDigest, codec.digest(looks.digested.value)))
      else if trust == SomethingElse then Err(AmbiguousTrust)
      else LoadOpened(codec, AsRead(m), looks.reread, trust == ExactlyTrue)
  {
  }

  /** Whatever was looked at, a load under a deploy's manifest is that deploy's own load or a refusal, exactly unless
      the looks mix. The looks need not be whole files of any one moment: a torn read is covered as well. */
  lemma WholeOrRefusedIff(codec: Codec, job: Job, looks: Looks, trust: Trust)
    requires !ChooseFormat(codec, job.model).NoForm? && NotMistaken(codec, job, looks)
    ensures var r := LoadLooks(codec, AsRead(ManifestOf(codec, job)), looks, trust);
      (r.Err? || r == OwnLoad(codec, job, trust)) <==> !Mixes(codec, job, looks, trust)
  {
    LoadOwnLooks(codec, job, looks, trust);
  }

  /** Two byte strings that load do not load as the same model, unless they are the same. */
  predicate DecodesApart(codec: Codec, job: Job, a: Bytes, b: Bytes, trust: Trust) {
    LoadAs(codec, job, a, trust).Ok? && LoadAs(codec, job, a, trust) == LoadAs(codec, job, b, trust) ==> a == b
  }

  /** For a load that succeeds, the condition is one on bytes alone: what it returns is the deploy's own load exactly
      when the bytes it decoded are the bytes it digested. */
  lemma SuccessIsWholeIff(codec: Codec, job: Job, looks: Looks, trust: Trust)
    requires !ChooseFormat(codec, job.model).NoForm? && NotMistaken(codec, job, looks)
    requires looks.reread.Some? ==> DecodesApart(codec, job, looks.reread.value, OwnBytes(codec, job), trust)
    requires LoadLooks(codec, AsRead(ManifestOf(codec, job)), looks, trust).Ok?
    ensures LoadLooks(codec, AsRead(ManifestOf(codec, job)), looks, trust) == OwnLoad(codec, job, trust) <==>
      looks.reread == looks.digested
  {
    LoadOwnLooks(codec, job, looks, trust);
  }

  // ---------------------------------------------------------------- the directory over time

  /** The operations of an event, the removal of a temporary file after an exception included. */
  function EventOps(codec: Codec, e: Event): seq<Op> {
    Performed(codec, e) + if e.ending.Raised? then [Unlink(TempName(e.job.nonce))] else []
  }

  /** The operations of a run of deploys, one after another. */
  function Script(codec: Codec, run: seq<Event>): seq<Op> {
    if run == [] then [] else Script(codec, run[..|run| - 1]) + EventOps(codec, run[|run| - 1])
  }

  /** The directory after the first `t` operations of a run that starts with it empty. */
  function StateAt(codec: Codec, run: seq<Event>, t: nat): Files
    requires t <= |Script(codec, run)|
  {
    ApplyAll(map[], Script(codec, run)[..t])
  }

  lemma EventOpsLead(codec: Codec, files: Files, e: Event)
    ensures ApplyAll(files, EventOps(codec, e)) == After(codec, files, e)
  {
    var ops := Performed(codec, e);
    if e.ending.Raised? {
      ApplyConcat(files, ops, [Unlink(TempName(e.job.nonce))]);
      OneOp(ApplyAll(files, ops), Unlink(TempName(e.job.nonce)));
    } else {
      assert ops + [] == ops;
    }
  }

  lemma {:induction false} ScriptLeads(codec: Codec, run: seq<Event>)
    ensures ApplyAll(map[], Script(codec, run)) == Directory(codec, run)
    decreases |run|
  {
    if run != [] {
      var before, e := run[..|run| - 1], run[|run| - 1];
      ScriptLeads(codec, before);
      ApplyConcat(map[], Script(codec, before), EventOps(codec, e));
      EventOpsLead(codec, Directory(codec, before), e);
    }
  }

  /** `history` is `run` cut off within its last event or before. */
  predicate IsCutOf(history: seq<Event>, run: seq<Event>) {
    |history| <= |run|
    && (history != [] ==>
      history[..|history| - 1] == run[..|history| - 1] && history[|history| - 1].job == run[|history| - 1].job)
  }

  /** An event cut off after some of its operations. */
  function CutEvent(codec: Codec, e: Event, done: nat): Event {
    if done <= |Performed(codec, e)| then Event(e.job, Died(done)) else e
  }

  lemma CutEventOps(codec: Codec, e: Event, done: nat)
    requires done <= |EventOps(codec, e)|
    ensures EventOps(codec, CutEvent(codec, e, done)) == EventOps(codec, e)[..done]
  {
    if done <= |Performed(codec, e)| {
      assert EventOps(codec, e)[..done] == Performed(codec, e)[..done];
      CutTwice(Plan(codec, e.job), Performed(codec, e), done);
    }
  }

  lemma CutTwice(plan: seq<Op>, ops: seq<Op>, done: nat)
    requires |ops| <= |plan| && ops == plan[..|ops|] && done <= |ops|
    ensures Cut(plan, done) == ops[..done] && Cut(plan, done) + [] == ops[..done]
  {
  }

  lemma ScriptExtends(codec: Codec, before: seq<Event>, e: Event)
    ensures Script(codec, before + [e]) == Script(codec, before) + EventOps(codec, e)
  {
    assert (before + [e])[..|before|] == before;
  }

  lemma CutLater(history: seq<Event>, before: seq<Event>, e: Event)
    requires IsCutOf(history, before)
    ensures IsCutOf(history, before + [e])
  {
    if history != [] {
      assert (before + [e])[..|history| - 1] == before[..|history| - 1];
    }
  }

  lemma PrefixOfSum(a: seq<Op>, b: seq<Op>, t: nat)
    requires t <= |a + b|
    ensures (a + b)[..t] == if t <= |a| then a[..t] else a + b[..t - |a|]
  {
  }

  predicate IsHistory(codec: Codec, run: seq<Event>, t: nat, history: seq<Event>) {
    t <= |Script(codec, run)| && IsCutOf(history, run) && Script(codec, history) == Script(codec, run)[..t]
  }

  lemma EarlyHistory(codec: Codec, before: seq<Event>, e: Event, t: nat, history: seq<Event>)
    requires IsHistory(codec, before, t, history)
    ensures IsHistory(codec, before + [e], t, history)
  {
    ScriptExtends(codec, before, e);
    CutLater(history, before, e);
    PrefixOfSum(Script(codec, before), EventOps(codec, e), t);
  }

  lemma LateHistory(codec: Codec, before: seq<Event>, e: Event, done: nat)
    requires done <= |EventOps(codec, e)|
    ensures IsHistory(codec, before + [e], |Script(codec, before)| + done, before + [CutEvent(codec, e, done)])
  {
    var cut := CutEvent(codec, e, done);
    CutEventOps(codec, e, done);
    ScriptExtends(codec, before, cut);
    ScriptExtends(codec, before, e);
    PrefixOfSum(Script(codec, before), EventOps(codec, e), |Script(codec, before)| + done);
    LastReplaced(before, cut, e);
  }

  lemma LastReplaced(before: seq<Event>, cut: Event, e: Event)
    requires cut.job == e.job
    ensures IsCutOf(before + [cut], before + [e])
  {
    assert (before + [cut])[..|before|] == before && (before + [e])[..|before|] == before;
  }

  /** At every moment the directory is what some cut of the run leaves. */
  lemma {:induction false} HistoryAt(codec: Codec, run: seq<Event>, t: nat) returns (history: seq<Event>)
    requires t <= |Script(codec, run)|
    ensures IsHistory(codec, run, t, history)
    decreases |run|, 1
  {
    if run == [] {
      history := [];
      NoHistory(codec, t);
    } else {
      var before, e := run[..|run| - 1], run[|run| - 1];
      Rejoined(run, before, e);
      history := HistoryBefore(codec, before, e, t);
    }
  }

  lemma NoHistory(codec: Codec, t: nat)
    requires t <= |Script(codec, [])|
    ensures IsHistory(codec, [], t, [])
  {
    assert Script(codec, []) == [];
  }

  lemma Rejoined(run: seq<Event>, before: seq<Event>, e: Event)
    requires run != [] && before == run[..|run| - 1] && e == run[|run| - 1]
    ensures before + [e] == run
  {
  }

  lemma {:induction false} HistoryBefore(codec: Codec, before: seq<Event>, e: Event, t: nat)
    returns (history: seq<Event>)
    requires t <= |Script(codec, before + [e])|
    ensures IsHistory(codec, before + [e], t, history)
    decreases |before| + 1, 0
  {
    var early := |Script(codec, before)|;
    if t <= early {
      history := HistoryAt(codec, before, t);
      EarlyHistory(codec, before, e, t, history);
    } else {
      ScriptExtends(codec, before, e);
      history := before + [CutEvent(codec, e, t - early)];
      LateHistory(codec, before, e, t - early);
    }
  }

  lemma HistoryLeads(codec: Codec, run: seq<Event>, t: nat, history: seq<Event>)
    requires IsHistory(codec, run, t, history)
    ensures Directory(codec, history) == StateAt(codec, run, t)
  {
    ScriptLeads(codec, history);
  }

  // ---------------------------------------------------------------- loads over time

  predicate InOrder(codec: Codec, run: seq<Event>, t: Moments<nat>) {
    t.manifest <= t.present <= t.digest <= t.open <= |Script(codec, run)|
  }

  function StatesAt(codec: Codec, run: seq<Event>, t: Moments<nat>): Moments<Files>
    requires InOrder(codec, run, t)
  {
    Moments(
      StateAt(codec, run, t.manifest), StateAt(codec, run, t.present), StateAt(codec, run, t.digest),
      StateAt(codec, run, t.open))
  }

  /** The deploy at position `n` of `history`, which ends when the manifest is read, is the last completed by then. */
  predicate LastBy(codec: Codec, run: seq<Event>, t: nat, history: seq<Event>, n: nat) {
    IsHistory(codec, run, t, history) && LastCompleted(codec, history) == Some(n)
  }

  predicate Distinguishable(codec: Codec, files: Files, run: seq<Event>) {
    forall e :: e in run ==> CannotBeConfused(codec, files, e.job)
  }

  lemma JobsOfCut(history: seq<Event>, run: seq<Event>, n: nat) returns (e: Event)
    requires IsCutOf(history, run) && n < |history|
    ensures e in run && e.job == history[n].job
  {
    e := run[n];
    if n < |history| - 1 { assert history[..|history| - 1][n] == run[..|history| - 1][n]; }
  }

  /** A load beside any run of deploys, with the writer acting between its looks. If it gets past the manifest, the
      manifest is that of the last deploy completed when it was read, and the result is the load of what it found at its
      looks at that deploy's file. */
  lemma LoadOverTime(codec: Codec, run: seq<Event>, t: Moments<nat>, trust: Trust)
    returns (history: seq<Event>, n: nat, looks: Looks)
    requires InOrder(codec, run, t) && MANIFEST in StateAt(codec, run, t.manifest)
    requires Distinguishable(codec, StateAt(codec, run, t.digest), run)
    ensures LastBy(codec, run, t.manifest, history, n) && n < |history| && Completed(codec, history[n])
    ensures looks == LooksAt(StatesAt(codec, run, t), OwnFile(codec, history[n].job))
    ensures NotMistaken(codec, history[n].job, looks)
    ensures LoadOver(codec, StatesAt(codec, run, t), trust) ==
      LoadLooks(codec, AsRead(ManifestOf(codec, history[n].job)), looks, trust)
  {
    history := HistoryAt(codec, run, t.manifest);
    HistoryLeads(codec, run, t.manifest, history);
    ManifestIsOfLastCompleted(codec, history);
    n := LastCompleted(codec, history).value;
    var e := JobsOfCut(history, run, n);
    looks := LooksAt(StatesAt(codec, run, t), OwnFile(codec, history[n].job));
    assert CannotBeConfused(codec, StateAt(codec, run, t.digest), e.job);
    ManifestGives(codec, StatesAt(codec, run, t), history[n].job, trust);
  }

  lemma ManifestGives(codec: Codec, at: Moments<Files>, job: Job, trust: Trust)
    requires MANIFEST in at.manifest && at.manifest[MANIFEST] == codec.render(ManifestOf(codec, job))
    requires ReadsBack(codec, ManifestOf(codec, job)) && !ChooseFormat(codec, job.model).NoForm?
    ensures LoadOver(codec, at, trust) ==
      LoadLooks(codec, AsRead(ManifestOf(codec, job)), LooksAt(at, OwnFile(codec, job)), trust)
  {
    var m := AsRead(ManifestOf(codec, job));
    ModelFilesArePlain(ChooseFormat(codec, job.model));
    assert ModelFileOf(m) == OwnFile(codec, job);
  }

  /** Beside any run of deploys, a load is the own load of the last deploy completed when the manifest was read, or a
      refusal, exactly unless its looks at that deploy's file mix. */
  lemma LoadIsWholeIff(codec: Codec, run: seq<Event>, t: Moments<nat>, trust: Trust)
    returns (history: seq<Event>, n: nat)
    requires InOrder(codec, run, t) && MANIFEST in StateAt(codec, run, t.manifest)
    requires Distinguishable(codec, StateAt(codec, run, t.digest), run)
    ensures LastBy(codec, run, t.manifest, history, n) && n < |history| && Completed(codec, history[n])
    ensures var r := LoadOver(codec, StatesAt(codec, run, t), trust);
      var looks := LooksAt(StatesAt(codec, run, t), OwnFile(codec, history[n].job));
      (r.Err? || r == OwnLoad(codec, history[n].job, trust)) <==> !Mixes(codec, history[n].job, looks, trust)
  {
    var looks;
    history, n, looks := LoadOverTime(codec, run, t, trust);
    WholeOrRefusedIff(codec, history[n].job, looks, trust);
  }

  /** And a load that succeeds is whole exactly when the named file holds, when it is opened again, the bytes that it
      held when it was digested. */
  lemma SuccessfulLoadIsWholeIff(codec: Codec, run: seq<Event>, t: Moments<nat>, trust: Trust)
    returns (history: seq<Event>, n: nat)
    requires InOrder(codec, run, t) && Distinguishable(codec, StateAt(codec, run, t.digest), run)
    requires LoadOver(codec, StatesAt(codec, run, t), trust).Ok?
    requires forall e, b :: e in run && ReadAt(StateAt(codec, run, t.open), OwnFile(codec, e.job)) == Some(b) ==>
      DecodesApart(codec, e.job, b, OwnBytes(codec, e.job), trust)
    ensures LastBy(codec, run, t.manifest, history, n) && n < |history| && Completed(codec, history[n])
    ensures var name := OwnFile(codec, history[n].job);
      LoadOver(codec, StatesAt(codec, run, t), trust) == OwnLoad(codec, history[n].job, trust) <==>
      ReadAt(StateAt(codec, run, t.open), name) == ReadAt(StateAt(codec, run, t.digest), name)
  {
    var looks;
    history, n, looks := LoadOverTime(codec, run, t, trust);
    var e := JobsOfCut(history, run, n);
    if looks.reread.Some? {
      assert DecodesApart(codec, e.job, looks.reread.value, OwnBytes(codec, e.job), trust);
    }
    SuccessIsWholeIff(codec, history[n].job, looks, trust);
  }

  // ---------------------------------------------------------------- the guard

  /** No operation on a model file falls between two moments. */
  predicate Quiet(codec: Codec, run: seq<Event>, from: nat, to: nat)
    requires from <= to <= |Script(codec, run)|
  {
    Untouched(Script(codec, run)[from..to], JSON_FILE) && Untouched(Script(codec, run)[from..to], PICKLE_FILE)
  }

  lemma QuietKeeps(codec: Codec, run: seq<Event>, from: nat, to: nat, name: string)
    requires from <= to <= |Script(codec, run)| && Untouched(Script(codec, run)[from..to], name)
    ensures ReadAt(StateAt(codec, run, from), name) == ReadAt(StateAt(codec, run, to), name)
  {
    var ops := Script(codec, run);
    assert ops[..to] == ops[..from] + ops[from..to];
    ApplyConcat(map[], ops[..from], ops[from..to]);
    UntouchedStays(StateAt(codec, run, from), ops[from..to], name);
  }

  /** What the writer does to the manifest and its temporary file is never in the reader's way. */
  lemma ManifestStageIsQuiet(text: Bytes, nonce: string)
    ensures Untouched(Replacing(text, nonce), JSON_FILE) && Untouched(Replacing(text, nonce), PICKLE_FILE)
    ensures Untouched([Unlink(TempName(nonce))], JSON_FILE) && Untouched([Unlink(TempName(nonce))], PICKLE_FILE)
  {
    NamesDiffer();
  }

  /** When no deploy works on a model file between the digest and the second opening, a load is the own load of the last
      deploy completed when the manifest was read, or a refusal, whatever the writer does at other times. */
  lemma QuietLoadIsWhole(codec: Codec, run: seq<Event>, t: Moments<nat>, trust: Trust)
    returns (history: seq<Event>, n: nat)
    requires InOrder(codec, run, t) && MANIFEST in StateAt(codec, run, t.manifest)
    requires Distinguishable(codec, StateAt(codec, run, t.digest), run) && Quiet(codec, run, t.digest, t.open)
    ensures LastBy(codec, run, t.manifest, history, n) && n < |history| && Completed(codec, history[n])
    ensures var r := LoadOver(codec, StatesAt(codec, run, t), trust);
      r.Err? || r == OwnLoad(codec, history[n].job, trust)
  {
    history, n := LoadIsWholeIff(codec, run, t, trust);
    QuietKeeps(codec, run, t.digest, t.open, OwnFile(codec, history[n].job));
  }

  // ---------------------------------------------------------------- when the guard fails

  /** A hash that keeps every byte. */
  function Spelled(b: Bytes): string {
    seq(|b|, i requires 0 <= i < |b| => b[i] as char)
  }

  lemma SpelledApart(a: Bytes, b: Bytes)
    requires Spelled(a) == Spelled(b)
    ensures a == b
  {
    forall i | 0 <= i < |a| ensures a[i] == b[i] { assert Spelled(a)[i] == Spelled(b)[i]; }
  }

  const FIRST := Job(Fitted("Gaussian", [1]), 0, "first", [], [], "0")
  const SECOND := Job(Fitted("Gaussian", [2]), 1, "second", [], [], "1")

  function AsText(m: Fitted): Option<Bytes> {
    Some(m.state)
  }

  function FromText(b: Bytes, trusted: bool): Result<Fitted, string> {
    Ok(Fitted("Gaussian", b))
  }

  function Stamp(m: Manifest): Bytes {
    if m.createdAt == 0 then [0] else [1]
  }

  /** A codec that confuses nothing: models of the family, hashes and the two manifests all have texts of their own. */
  function OneToOne(contentHash: Fitted -> Option<string>): (codec: Codec)
    ensures codec.toJson == AsText && codec.fromJson == FromText && codec.digest == Spelled && codec.render == Stamp
    ensures codec.contentHash == contentHash
    ensures ReadsBack(codec, ManifestOf(codec, FIRST)) && ReadsBack(codec, ManifestOf(codec, SECOND))
  {
    var blank := Codec(
      AsText, FromText, (m: Fitted) => Whole(m.state), b => Ok(Fitted("Gaussian", b)), Spelled, contentHash, Stamp,
      b => Unreadable);
    var first, second := AsRead(ManifestOf(blank, FIRST)), AsRead(ManifestOf(blank, SECOND));
    var codec := blank.(parse := b => if b == [0] then first else second);
    SameManifest(blank, codec, FIRST);
    SameManifest(blank, codec, SECOND);
    codec
  }

  lemma SameManifest(a: Codec, b: Codec, job: Job)
    requires b == a.(parse := b.parse)
    ensures ManifestOf(a, job) == ManifestOf(b, job)
  {
    assert ChooseFormat(a, job.model) == ChooseFormat(b, job.model);
  }

  /** A deploy that has run through, and a second one that died as soon as it had rewritten the model file. */
  function TwoDeploys(): seq<Event> {
    [Event(FIRST, RanThrough), Event(SECOND, Died(2))]
  }

  lemma RewriteOnly(codec: Codec)
    requires codec.toJson == AsText && codec.fromJson == FromText
    ensures ChooseFormat(codec, SECOND.model) == Json([2]) && ChooseFormat(codec, FIRST.model) == Json([1])
    ensures EventOps(codec, TwoDeploys()[1]) == Write(JSON_FILE, [2])
    ensures !Completed(codec, TwoDeploys()[1])
  {
    var plan := Plan(codec, SECOND);
    assert |Write(JSON_FILE, [2])| == 2;
    assert plan[..2] == Write(JSON_FILE, [2]);
  }

  /** The two moments: after the first deploy, and after the rewriting. */
  lemma TwoMoments(codec: Codec) returns (t: nat)
    requires codec.toJson == AsText && codec.fromJson == FromText
    ensures t + 2 == |Script(codec, TwoDeploys())|
    ensures StateAt(codec, TwoDeploys(), t) == Deployed(codec, FIRST, map[])
    ensures StateAt(codec, TwoDeploys(), t + 2) == Deployed(codec, FIRST, map[])[JSON_FILE := [2]]
  {
    var run, one := TwoDeploys(), [Event(FIRST, RanThrough)];
    RewriteOnly(codec);
    assert run[..1] == one && one[..0] == [];
    t := |Script(codec, one)|;
    var ops := Script(codec, run);
    assert ops == Script(codec, one) + Write(JSON_FILE, [2]);
    assert ops[..t] == Script(codec, one) && ops[..t + 2] == ops;
    ScriptLeads(codec, one);
    DeployWrites(codec, FIRST, map[]);
    ApplyConcat(map[], Script(codec, one), Write(JSON_FILE, [2]));
    WriteWrites(Deployed(codec, FIRST, map[]), JSON_FILE, [2]);
  }

  lemma SecondUnderFirst(codec: Codec, trust: Trust)
    requires codec.toJson == AsText && codec.fromJson == FromText
    ensures LoadAs(codec, FIRST, [2], trust).Ok?
    ensures LoadAs(codec, FIRST, [2], trust).value.model == SECOND.model
    ensures LoadAs(codec, FIRST, [2], trust).value.fit == FIRST.fit
    ensures LoadAs(codec, FIRST, [1], trust).Ok? && LoadAs(codec, FIRST, [1], trust).value.model == FIRST.model
  {
    RewriteOnly(codec);
  }

  lemma FirstHolds(codec: Codec, files: Files)
    requires codec.toJson == AsText && codec.fromJson == FromText && files == Deployed(codec, FIRST, map[])
    ensures MANIFEST in files && files[MANIFEST] == codec.render(ManifestOf(codec, FIRST))
    ensures JSON_FILE in files && files[JSON_FILE] == [1]
  {
    RewriteOnly(codec);
    NamesDiffer();
  }

  /** The guard is needed. A reader that digests the model file before a second deploy rewrites it, and opens it after,
      is given the second model under the first deploy's records, although nothing collides and the second deploy never
      completes. */
  lemma RacedReadMixes(contentHash: Fitted -> Option<string>, trust: Trust) returns (codec: Codec, t: Moments<nat>)
    requires trust != SomethingElse
    ensures codec == OneToOne(contentHash) && (forall a, b :: codec.digest(a) == codec.digest(b) ==> a == b)
    ensures InOrder(codec, TwoDeploys(), t) && t.manifest == t.present == t.digest
    ensures Distinguishable(codec, StateAt(codec, TwoDeploys(), t.digest), TwoDeploys())
    ensures !Completed(codec, TwoDeploys()[1])
    ensures var r := LoadOver(codec, StatesAt(codec, TwoDeploys(), t), trust);
      r.Ok? && r.value.model == SECOND.model && r.value.fit == FIRST.fit && r != OwnLoad(codec, FIRST, trust)
  {
    codec := OneToOne(contentHash);
    RewriteOnly(codec);
    forall a, b | codec.digest(a) == codec.digest(b) ensures a == b { SpelledApart(a, b); }
    var m := TwoMoments(codec);
    t := Moments(m, m, m, m + 2);
    var run, at := TwoDeploys(), StatesAt(codec, TwoDeploys(), t);
    forall e | e in run ensures CannotBeConfused(codec, at.digest, e.job) {
      assert e.job == FIRST || e.job == SECOND;
    }
    FirstHolds(codec, at.manifest);
    ManifestGives(codec, at, FIRST, trust);
    var looks := LooksAt(at, JSON_FILE);
    assert looks == Looks(true, Some([1]), Some([2]));
    LoadOwnLooks(codec, FIRST, looks, trust);
    SecondUnderFirst(codec, trust);
  }

  predicate HashesDiffer(codec: Codec, recorded: Fitted, loaded: Fitted) {
    var a, b := codec.contentHash(recorded), codec.contentHash(loaded);
    a.Some? && a.value != "" && b.Some? && b.value != a.value
  }

  /** Such a mixture is disclosed by a note exactly when both models have a content hash and the hashes differ. */
  lemma MixtureIsDisclosedIff(codec: Codec, job: Job, bytes: Bytes, trust: Trust)
    requires LoadAs(codec, job, bytes, trust).Ok?
    ensures (exists x :: x in LoadAs(codec, job, bytes, trust).value.notes && x.ContentDiffers?) <==>
      HashesDiffer(codec, job.model, LoadAs(codec, job, bytes, trust).value.model)
  {
    DifferenceNoted(codec, LoadAs(codec, job, bytes, trust).value.model, AsRead(ManifestOf(codec, job)));
  }

  lemma DifferenceNoted(codec: Codec, model: Fitted, m: ManifestText)
    requires m.Fields?
    ensures (exists x :: x in NotesFor(codec, model, m) && x.ContentDiffers?) <==>
      m.contentHash.Some? && m.contentHash.value != "" && codec.contentHash(model).Some?
      && codec.contentHash(model).value != m.contentHash.value
  {
    var notes := NotesFor(codec, model, m);
    if m.contentHash.Some? && m.contentHash.value != "" && codec.contentHash(model).Some?
      && codec.contentHash(model).value != m.contentHash.value
    {
      assert notes[|notes| - 1].ContentDiffers?;
    }
  }
}
