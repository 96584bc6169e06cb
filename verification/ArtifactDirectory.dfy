/**
 * The artifact directory of a fitted model: the file operations a deploy performs, in order, and the reader that
 * checks the manifest and the model's digest before it decodes anything. A process may die, or an exception may be
 * raised, after any one of the operations.
 */
module ArtifactDirectory {
  import opened Outcomes
  import opened ByteStrings

  type Files = map<string, Bytes>

  datatype Fitted = Fitted(family: string, state: Bytes)

  const SCHEMA := "lifecycle.Model/v1"
  const MANIFEST := "manifest.json"
  const JSON_FILE := "model.json"
  const PICKLE_FILE := "model.pkl"

  datatype Manifest = Manifest(
    family: string, createdAt: int, fit: string, notes: seq<string>, format: string, formatFallback: Option<string>,
    modelFile: string, modelDigest: string, contentHash: Option<string>, notExported: seq<string>, schema: string)

  /** What a reader finds in a manifest's bytes; any field may be missing. */
  datatype ManifestText =
    | Unreadable
    | NotJson
    | NotAnObject
    | Fields(
        schema: Option<string>, format: Option<string>, modelFile: Option<string>, modelDigest: Option<string>,
        family: Option<string>, fit: string, notes: seq<string>, notExported: seq<string>,
        formatFallback: Option<string>, contentHash: Option<string>)

  datatype Pickled = Whole(bytes: Bytes) | Broken(partial: Bytes)

  /** The encoders, decoders and hashes that the protocol uses but does not define. */
  datatype Codec = Codec(
    toJson: Fitted -> Option<Bytes>,
    fromJson: (Bytes, bool) -> Result<Fitted, string>,
    pickle: Fitted -> Pickled,
    unpickle: Bytes -> Result<Fitted, string>,
    digest: Bytes -> string,
    contentHash: Fitted -> Option<string>,
    render: Manifest -> Bytes,
    parse: Bytes -> ManifestText)

  // ---------------------------------------------------------------- atomic operations on the directory

  datatype Op =
    | Truncate(name: string)
    | Append(name: string, b: byte)
    | Unlink(name: string)
    | Rename(src: string, dst: string)

  function Contents(files: Files, name: string): Bytes {
    if name in files then files[name] else []
  }

  function Apply(files: Files, op: Op): Files {
    match op
    case Truncate(n) => files[n := []]
    case Append(n, b) => files[n := Contents(files, n) + [b]]
    case Unlink(n) => files - {n}
    case Rename(src, dst) => if src in files then (files - {src})[dst := files[src]] else files
  }

  function ApplyAll(files: Files, ops: seq<Op>): Files
    decreases |ops|
  {
    if ops == [] then files else ApplyAll(Apply(files, ops[0]), ops[1..])
  }

  function Appends(name: string, bytes: Bytes): (ops: seq<Op>)
    ensures |ops| == |bytes| && forall i :: 0 <= i < |ops| ==> ops[i] == Append(name, bytes[i])
  {
    seq(|bytes|, i requires 0 <= i < |bytes| => Append(name, bytes[i]))
  }

  /** Opening for writing empties the file; its bytes then arrive one by one. */
  function Write(name: string, bytes: Bytes): seq<Op> {
    [Truncate(name)] + Appends(name, bytes)
  }

  lemma {:induction false} ApplyConcat(files: Files, a: seq<Op>, b: seq<Op>)
    ensures ApplyAll(files, a + b) == ApplyAll(ApplyAll(files, a), b)
    decreases |a|
  {
    if a == [] {
      assert a + b == b;
    } else {
      assert (a + b)[1..] == a[1..] + b;
      ApplyConcat(Apply(files, a[0]), a[1..], b);
    }
  }

  lemma {:induction false} AppendsAppend(files: Files, name: string, bytes: Bytes)
    requires name in files
    ensures ApplyAll(files, Appends(name, bytes)) == files[name := files[name] + bytes]
    decreases |bytes|
  {
    if bytes == [] {
      assert files[name] + bytes == files[name];
    } else {
      var next := files[name := files[name] + [bytes[0]]];
      assert Appends(name, bytes)[1..] == Appends(name, bytes[1..]);
      AppendsAppend(next, name, bytes[1..]);
      assert next[name] + bytes[1..] == files[name] + bytes;
    }
  }

  /** A completed write leaves the file with exactly its bytes, and every other file alone. */
  lemma WriteWrites(files: Files, name: string, bytes: Bytes)
    ensures ApplyAll(files, Write(name, bytes)) == files[name := bytes]
  {
    var emptied := files[name := []];
    assert Write(name, bytes)[1..] == Appends(name, bytes);
    AppendsAppend(emptied, name, bytes);
    assert emptied[name] + bytes == bytes;
    assert emptied[name := bytes] == files[name := bytes];
  }

  predicate Touches(op: Op, name: string) {
    match op
    case Truncate(n) => n == name
    case Append(n, _) => n == name
    case Unlink(n) => n == name
    case Rename(src, dst) => src == name || dst == name
  }

  predicate Untouched(ops: seq<Op>, name: string) {
    forall i :: 0 <= i < |ops| ==> !Touches(ops[i], name)
  }

  predicate SameFile(a: Files, b: Files, name: string) {
    (name in a <==> name in b) && (name in a && name in b ==> a[name] == b[name])
  }

  lemma {:induction false} UntouchedStays(files: Files, ops: seq<Op>, name: string)
    requires Untouched(ops, name)
    ensures SameFile(files, ApplyAll(files, ops), name)
    decreases |ops|
  {
    if ops != [] {
      assert !Touches(ops[0], name);
      UntouchedStays(Apply(files, ops[0]), ops[1..], name);
    }
  }

  /** The states the directory passes through, one after each operation. */
  function States(files: Files, ops: seq<Op>): (states: seq<Files>)
    ensures |states| == |ops|
    decreases |ops|
  {
    if ops == [] then [] else [Apply(files, ops[0])] + States(Apply(files, ops[0]), ops[1..])
  }

  lemma {:induction false} StatesAreCuts(files: Files, ops: seq<Op>, i: nat)
    requires i < |ops|
    ensures States(files, ops)[i] == ApplyAll(files, ops[..i + 1])
    decreases i
  {
    var next := Apply(files, ops[0]);
    assert ops[..i + 1][1..] == ops[1..][..i];
    if i > 0 {
      StatesAreCuts(next, ops[1..], i - 1);
    }
  }

  lemma {:induction false} StatesConcat(files: Files, a: seq<Op>, b: seq<Op>)
    ensures States(files, a + b) == States(files, a) + States(ApplyAll(files, a), b)
    decreases |a|
  {
    if a == [] {
      assert a + b == b;
    } else {
      assert (a + b)[1..] == a[1..] + b;
      StatesConcat(Apply(files, a[0]), a[1..], b);
    }
  }

  // ---------------------------------------------------------------- what one deploy does

  /** One call of deploy: the model and records of the caller, the clock, and the random part of the temporary name. */
  datatype Job = Job(
    model: Fitted, createdAt: int, fit: string, notes: seq<string>, notExported: seq<string>, nonce: string)

  datatype Choice = Json(text: Bytes) | Pickle(bytes: Bytes, reason: string) | NoForm(partial: Bytes, reason: string)

  function NoJsonForm(family: string): string {
    "the serialization registry has no JSON form for " + family
  }

  function WriteOnly(family: string, failure: string): string {
    family + " encodes to JSON that cannot be read back again (" + failure
      + "); the JSON artifact would have been write-only"
  }

  function PickleInstead(codec: Codec, model: Fitted, reason: string): Choice {
    match codec.pickle(model)
    case Whole(bytes) => Pickle(bytes, reason)
    case Broken(partial) => NoForm(partial, reason)
  }

  /** The first format that round-trips: JSON when its own text decodes again, otherwise a pickle. */
  function ChooseFormat(codec: Codec, model: Fitted): Choice {
    match codec.toJson(model)
    case None => PickleInstead(codec, model, NoJsonForm(model.family))
    case Some(text) =>
      var back := codec.fromJson(text, true);
      if back.Ok? then Json(text) else PickleInstead(codec, model, WriteOnly(model.family, back.error))
  }

  function ModelFile(c: Choice): string {
    if c.Json? then JSON_FILE else PICKLE_FILE
  }

  function OtherFile(c: Choice): string {
    if c.Json? then PICKLE_FILE else JSON_FILE
  }

  function ModelBytes(c: Choice): Bytes {
    match c
    case Json(text) => text
    case Pickle(bytes, _) => bytes
    case NoForm(partial, _) => partial
  }

  function TempName(nonce: string): (name: string)
    ensures name != MANIFEST && name != JSON_FILE && name != PICKLE_FILE
  {
    MANIFEST + "." + nonce + ".tmp"
  }

  function ManifestOf(codec: Codec, job: Job): Manifest {
    var c := ChooseFormat(codec, job.model);
    Manifest(
      job.model.family, job.createdAt, job.fit, job.notes,
      if c.Json? then "json" else "pickle", if c.Json? then None else Some(c.reason),
      ModelFile(c), codec.digest(ModelBytes(c)), codec.contentHash(job.model), job.notExported, SCHEMA)
  }

  /** Everything a deploy does before its last step. */
  function Preparation(codec: Codec, job: Job): seq<Op> {
    var c := ChooseFormat(codec, job.model);
    if c.NoForm? then Write(PICKLE_FILE, c.partial)
    else
      Stages(ModelFile(c), ModelBytes(c), OtherFile(c), TempName(job.nonce), codec.render(ManifestOf(codec, job)))
  }

  /** The operations of one deploy, in order. A model with no form at all fails after its partial pickle. */
  function Plan(codec: Codec, job: Job): seq<Op> {
    Preparation(codec, job)
    + if ChooseFormat(codec, job.model).NoForm? then [] else [Rename(TempName(job.nonce), MANIFEST)]
  }

  /** The operations of a deploy, by name: own model file, the other format's file, temporary file, destination. */
  function Stages(own: string, bytes: Bytes, other: string, temp: string, text: Bytes): seq<Op> {
    Write(own, bytes) + [Unlink(other)] + Write(temp, text)
  }

  lemma StagesSpare(own: string, bytes: Bytes, other: string, temp: string, text: Bytes, name: string)
    requires name != own && name != other && name != temp
    ensures Untouched(Stages(own, bytes, other, temp, text), name) && Untouched(Write(own, bytes), name)
  {
  }

  lemma PreparationSparesManifest(codec: Codec, job: Job)
    ensures Untouched(Preparation(codec, job), MANIFEST)
  {
    var c := ChooseFormat(codec, job.model);
    NamesDiffer();
    StagesSpare(ModelFile(c), ModelBytes(c), OtherFile(c), TempName(job.nonce), codec.render(ManifestOf(codec, job)),
      MANIFEST);
  }

  lemma NamesDiffer()
    ensures MANIFEST != JSON_FILE && MANIFEST != PICKLE_FILE
  {
    assert |JSON_FILE| == 10 && |PICKLE_FILE| == 9 && |MANIFEST| == 13;
  }

  /** What those operations leave, followed by the rename. */
  function Outcome(files: Files, own: string, bytes: Bytes, other: string, temp: string, text: Bytes,
                   dst: string): Files {
    ((files[own := bytes] - {other}) - {temp})[dst := text]
  }

  lemma StagesStage(files: Files, own: string, bytes: Bytes, other: string, temp: string, text: Bytes)
    ensures ApplyAll(files, Stages(own, bytes, other, temp, text)) == (files[own := bytes] - {other})[temp := text]
  {
    var a, b, d := Write(own, bytes), [Unlink(other)], Write(temp, text);
    ApplyConcat(files, a + b, d);
    ApplyConcat(files, a, b);
    WriteWrites(files, own, bytes);
    OneOp(files[own := bytes], Unlink(other));
    WriteWrites(files[own := bytes] - {other}, temp, text);
  }

  lemma RenameFinishes(files: Files, ops: seq<Op>, staged: Files, temp: string, text: Bytes, dst: string)
    requires ApplyAll(files, ops) == staged[temp := text] && temp != dst
    ensures ApplyAll(files, ops + [Rename(temp, dst)]) == (staged - {temp})[dst := text]
  {
    ApplyConcat(files, ops, [Rename(temp, dst)]);
    OneOp(staged[temp := text], Rename(temp, dst));
    assert (staged[temp := text] - {temp})[dst := text] == (staged - {temp})[dst := text];
  }

  /** A deploy that runs to the end leaves its model file, no file of the other format, and its manifest; it leaves
      every other file alone. */
  lemma DeployWrites(codec: Codec, job: Job, files: Files)
    requires !ChooseFormat(codec, job.model).NoForm?
    ensures ApplyAll(files, Plan(codec, job)) == Deployed(codec, job, files)
  {
    var c := ChooseFormat(codec, job.model);
    var text := codec.render(ManifestOf(codec, job));
    var temp := TempName(job.nonce);
    StagesStage(files, ModelFile(c), ModelBytes(c), OtherFile(c), temp, text);
    RenameFinishes(files, Preparation(codec, job), files[ModelFile(c) := ModelBytes(c)] - {OtherFile(c)}, temp, text,
      MANIFEST);
  }

  lemma OneOp(files: Files, op: Op)
    ensures ApplyAll(files, [op]) == Apply(files, op)
  {
  }

  /** The directory after a deploy that ran to its end. */
  function Deployed(codec: Codec, job: Job, files: Files): Files {
    var c := ChooseFormat(codec, job.model);
    Outcome(
      files, ModelFile(c), ModelBytes(c), OtherFile(c), TempName(job.nonce), codec.render(ManifestOf(codec, job)),
      MANIFEST)
  }

  // ---------------------------------------------------------------- runs of deploys, each possibly cut off

  /** How a deploy ended: it ran through; the process died after some of its operations; or an exception was raised
      after some of them, and the temporary file was removed on the way out. */
  datatype Ending = RanThrough | Died(done: nat) | Raised(done: nat)

  datatype Event = Event(job: Job, ending: Ending)

  function Cut(ops: seq<Op>, done: nat): seq<Op> {
    if done <= |ops| then ops[..done] else ops
  }

  /** The operations that an event got through. */
  function Performed(codec: Codec, e: Event): seq<Op> {
    if e.ending.RanThrough? then Plan(codec, e.job) else Cut(Plan(codec, e.job), e.ending.done)
  }

  /** An exception removes the temporary file on its way out. */
  function Tidied(files: Files, e: Event): Files {
    if e.ending.Raised? then files - {TempName(e.job.nonce)} else files
  }

  function After(codec: Codec, files: Files, e: Event): Files {
    Tidied(ApplyAll(files, Performed(codec, e)), e)
  }

  /** The deploy got as far as promoting its manifest. */
  predicate Completed(codec: Codec, e: Event) {
    !ChooseFormat(codec, e.job.model).NoForm? && (e.ending.RanThrough? || e.ending.done >= |Plan(codec, e.job)|)
  }

  /** The directory after a run of deploys that starts with it empty. */
  function Directory(codec: Codec, run: seq<Event>): Files {
    if run == [] then map[] else After(codec, Directory(codec, run[..|run| - 1]), run[|run| - 1])
  }

  function OwnManifest(codec: Codec, e: Event): Bytes {
    codec.render(ManifestOf(codec, e.job))
  }

  /** A deploy that does not complete leaves the manifest as it found it. */
  lemma IncompleteSparesManifest(codec: Codec, files: Files, e: Event)
    requires !Completed(codec, e)
    ensures SameFile(files, After(codec, files, e), MANIFEST)
  {
    PreparationSparesManifest(codec, e.job);
    PerformedIsPrepared(codec, e);
    UntouchedStays(files, Performed(codec, e), MANIFEST);
  }

  /** A deploy that does not complete does not get beyond its preparation. */
  lemma PerformedIsPrepared(codec: Codec, e: Event)
    requires !Completed(codec, e)
    ensures var prep, ops := Preparation(codec, e.job), Performed(codec, e);
      |ops| <= |prep| && ops == prep[..|ops|]
  {
    PrefixOfPreparation(Preparation(codec, e.job), Plan(codec, e.job), e.ending);
  }

  lemma PrefixOfPreparation(prep: seq<Op>, plan: seq<Op>, ending: Ending)
    requires prep <= plan && |plan| <= |prep| + 1
    requires !ending.RanThrough? ==> ending.done < |plan| || plan == prep
    requires ending.RanThrough? ==> plan == prep
    ensures var ops := if ending.RanThrough? then plan else Cut(plan, ending.done);
      |ops| <= |prep| && ops == prep[..|ops|]
  {
  }

  /** A deploy that completes leaves its own manifest. */
  lemma CompleteLeavesManifest(codec: Codec, files: Files, e: Event)
    requires Completed(codec, e)
    ensures MANIFEST in After(codec, files, e) && After(codec, files, e)[MANIFEST] == OwnManifest(codec, e)
  {
    DeployWrites(codec, e.job, files);
    CompleteCut(Plan(codec, e.job), e.ending);
    OutcomeHolds(codec, e.job, files, e.ending);
  }

  lemma CompleteCut(plan: seq<Op>, ending: Ending)
    requires ending.RanThrough? || ending.done >= |plan|
    ensures (if ending.RanThrough? then plan else Cut(plan, ending.done)) == plan
  {
  }

  lemma OutcomeHolds(codec: Codec, job: Job, files: Files, ending: Ending)
    ensures var after := Tidied(Deployed(codec, job, files), Event(job, ending));
      MANIFEST in after && after[MANIFEST] == codec.render(ManifestOf(codec, job))
  {
  }

  /** The last deploy of a run that completed. */
  function LastCompleted(codec: Codec, run: seq<Event>): (o: Option<nat>)
    ensures o.Some? ==> o.value < |run| && Completed(codec, run[o.value])
    ensures o.Some? ==> forall j :: o.value < j < |run| ==> !Completed(codec, run[j])
    ensures o.None? ==> forall j :: 0 <= j < |run| ==> !Completed(codec, run[j])
    decreases |run|
  {
    if run == [] then None
    else if Completed(codec, run[|run| - 1]) then Some(|run| - 1)
    else
      var o := LastCompleted(codec, run[..|run| - 1]);
      NoneSince(codec, run[..|run| - 1], run, if o.Some? then o.value else -1);
      o
  }

  /** When the last deploy did not complete, none completed since the one before it that did. */
  lemma NoneSince(codec: Codec, before: seq<Event>, run: seq<Event>, i: int)
    requires run != [] && before == run[..|run| - 1] && !Completed(codec, run[|run| - 1]) && -1 <= i
    requires forall j :: i < j < |before| ==> !Completed(codec, before[j])
    ensures forall j :: i < j < |run| ==> !Completed(codec, run[j])
  {
    forall j | i < j < |run| ensures !Completed(codec, run[j]) {
      if j < |before| { assert before[j] == run[j]; }
    }
  }

  predicate HoldsManifest(files: Files, own: Option<Bytes>) {
    if own.Some? then MANIFEST in files && files[MANIFEST] == own.value else MANIFEST !in files
  }

  lemma HoldsThroughEvent(codec: Codec, files: Files, e: Event, own: Option<Bytes>)
    requires HoldsManifest(files, own)
    ensures HoldsManifest(After(codec, files, e), if Completed(codec, e) then Some(OwnManifest(codec, e)) else own)
  {
    if Completed(codec, e) {
      CompleteLeavesManifest(codec, files, e);
    } else {
      IncompleteSparesManifest(codec, files, e);
    }
  }

  function LastManifest(codec: Codec, run: seq<Event>): Option<Bytes> {
    var o := LastCompleted(codec, run);
    if o.Some? then Some(OwnManifest(codec, run[o.value])) else None
  }

  /** Whatever was cut off and whenever, the manifest in the directory is that of the last completed deploy. */
  lemma {:induction false} ManifestIsOfLastCompleted(codec: Codec, run: seq<Event>)
    ensures HoldsManifest(Directory(codec, run), LastManifest(codec, run))
    decreases |run|
  {
    if run != [] {
      var before, e := run[..|run| - 1], run[|run| - 1];
      ManifestIsOfLastCompleted(codec, before);
      HoldsThroughEvent(codec, Directory(codec, before), e, LastManifest(codec, before));
      assert LastManifest(codec, run) == if Completed(codec, e) then Some(OwnManifest(codec, e))
        else LastManifest(codec, before);
    }
  }

  // ---------------------------------------------------------------- reading an artifact

  /** The value passed for trust: exactly true, one of the plain ways of saying no, or anything else. */
  datatype Trust = ExactlyTrue | ExactlyFalse | NoValue | Zero | SomethingElse

  datatype Refusal =
    | NoManifest(model: Option<string>)
    | ManifestUnreadable | ManifestNotJson | ManifestNotAnObject
    | OtherSchema(schema: string) | UnknownFormat(format: string) | NotAPlainName(name: string)
    | ModelFileMissing(name: string) | ModelUnreadable(name: string) | DigestMismatch(expected: string, found: string)
    | AmbiguousTrust | PickleNeedsTrust | CannotDecode(why: string) | FamilyMismatch(family: string, found: string)

  datatype Note =
    | Kept(text: string)
    | ExportDropped(names: seq<string>)
    | WrittenAs(format: string, why: string)
    | ContentDiffers(found: string, recorded: string)

  datatype Loaded = Loaded(model: Fitted, fit: string, notes: seq<Note>)

  /** A name that is its own last path component. */
  predicate PlainName(name: string) {
    name != "" && name != "." && '/' !in name
  }

  function FormatOf(m: ManifestText): string
    requires m.Fields?
  {
    if m.format.Some? then m.format.value else "pickle"
  }

  function ModelFileOf(m: ManifestText): string
    requires m.Fields?
  {
    if m.modelFile.Some? && m.modelFile.value != "" then m.modelFile.value
    else if FormatOf(m) == "json" then JSON_FILE
    else PICKLE_FILE
  }

  function Load(codec: Codec, files: Files, trust: Trust): Result<Loaded, Refusal> {
    if MANIFEST !in files then
      Err(NoManifest(if JSON_FILE in files then Some(JSON_FILE)
        else if PICKLE_FILE in files then Some(PICKLE_FILE) else None))
    else
      match codec.parse(files[MANIFEST])
      case Unreadable => Err(ManifestUnreadable)
      case NotJson => Err(ManifestNotJson)
      case NotAnObject => Err(ManifestNotAnObject)
      case m => LoadNamed(codec, files, m, trust)
  }

  /** The checks on a parsed manifest, up to and including the digest of the file it names. */
  function LoadNamed(codec: Codec, files: Files, m: ManifestText, trust: Trust): Result<Loaded, Refusal>
    requires m.Fields?
  {
    var name := ModelFileOf(m);
    if m.schema.Some? && m.schema.value != SCHEMA then Err(OtherSchema(m.schema.value))
    else if FormatOf(m) != "json" && FormatOf(m) != "pickle" then Err(UnknownFormat(FormatOf(m)))
    else if !PlainName(name) then Err(NotAPlainName(name))
    else if name !in files then Err(ModelFileMissing(name))
    else if m.modelDigest.Some? && codec.digest(files[name]) != m.modelDigest.value then
      Err(DigestMismatch(m.modelDigest.value, codec.digest(files[name])))
    else if trust == SomethingElse then Err(AmbiguousTrust)
    else LoadBytes(codec, files[name], m, trust == ExactlyTrue)
  }

  /** Decoding, in the manifest's format, and the check of the family it describes. */
  function LoadBytes(codec: Codec, bytes: Bytes, m: ManifestText, trusted: bool): Result<Loaded, Refusal>
    requires m.Fields?
  {
    if FormatOf(m) != "json" && !trusted then Err(PickleNeedsTrust)
    else
      var decoded := if FormatOf(m) == "json" then codec.fromJson(bytes, trusted) else codec.unpickle(bytes);
      if decoded.Err? then Err(CannotDecode(decoded.error))
      else if m.family.Some? && decoded.value.family != m.family.value then
        Err(FamilyMismatch(m.family.value, decoded.value.family))
      else Ok(Loaded(decoded.value, m.fit, NotesFor(codec, decoded.value, m)))
  }

  function NotesFor(codec: Codec, model: Fitted, m: ManifestText): seq<Note>
    requires m.Fields?
  {
    seq(|m.notes|, i requires 0 <= i < |m.notes| => Kept(m.notes[i])) + AddedNotes(codec, model, m)
  }

  function AddedNotes(codec: Codec, model: Fitted, m: ManifestText): seq<Note>
    requires m.Fields?
  {
    var dropped := if m.notExported != [] then [ExportDropped(m.notExported)] else [];
    var fallback := if m.formatFallback.Some? && m.formatFallback.value != ""
      then [WrittenAs(FormatOf(m), m.formatFallback.value)] else [];
    var found := codec.contentHash(model);
    var differs := if m.contentHash.Some? && m.contentHash.value != "" && found.Some?
      && found.value != m.contentHash.value
      then [ContentDiffers(found.value, m.contentHash.value)] else [];
    dropped + fallback + differs
  }

  // ---------------------------------------------------------------- the protocol's promise

  /** A manifest's text reads back as the manifest. */
  predicate ReadsBack(codec: Codec, m: Manifest) {
    codec.parse(codec.render(m)) == AsRead(m)
  }

  function AsRead(m: Manifest): (r: ManifestText)
    ensures r.Fields?
  {
    Fields(
      Some(m.schema), Some(m.format), Some(m.modelFile), Some(m.modelDigest), Some(m.family), m.fit, m.notes,
      m.notExported, m.formatFallback, m.contentHash)
  }

  predicate NoCollision(codec: Codec, a: Bytes, b: Bytes) {
    codec.digest(a) == codec.digest(b) ==> a == b
  }

  /** What a reader gets from the bytes one deploy wrote, under that deploy's own manifest. */
  function OwnLoad(codec: Codec, job: Job, trust: Trust): Result<Loaded, Refusal> {
    if trust == SomethingElse then Err(AmbiguousTrust)
    else
      LoadBytes(codec, ModelBytes(ChooseFormat(codec, job.model)), AsRead(ManifestOf(codec, job)), trust == ExactlyTrue)
  }

  predicate CannotBeConfused(codec: Codec, files: Files, job: Job) {
    var c := ChooseFormat(codec, job.model);
    ReadsBack(codec, ManifestOf(codec, job))
    && (ModelFile(c) in files ==> NoCollision(codec, files[ModelFile(c)], ModelBytes(c)))
  }

  lemma ModelFilesArePlain(c: Choice)
    ensures PlainName(ModelFile(c))
  {
    assert JSON_FILE[0] == 'm' && PICKLE_FILE[0] == 'm';
  }

  lemma LoadNamedFile(codec: Codec, files: Files, m: Manifest, trust: Trust)
    requires m.schema == SCHEMA && (m.format == "json" || m.format == "pickle") && PlainName(m.modelFile)
    ensures LoadNamed(codec, files, AsRead(m), trust) ==
      if m.modelFile !in files then Err(ModelFileMissing(m.modelFile))
      else if codec.digest(files[m.modelFile]) != m.modelDigest then
        Err(DigestMismatch(m.modelDigest, codec.digest(files[m.modelFile])))
      else if trust == SomethingElse then Err(AmbiguousTrust)
      else LoadBytes(codec, files[m.modelFile], AsRead(m), trust == ExactlyTrue)
  {
  }

  /** Under a deploy's manifest, a reader gets that deploy's model, or a refusal because the named file is missing or
      is not the file that deploy wrote. */
  lemma LoadUnderManifest(codec: Codec, files: Files, job: Job, trust: Trust)
    requires MANIFEST in files && files[MANIFEST] == codec.render(ManifestOf(codec, job))
    requires !ChooseFormat(codec, job.model).NoForm? && CannotBeConfused(codec, files, job)
    ensures var c := ChooseFormat(codec, job.model);
      Load(codec, files, trust) ==
        if ModelFile(c) !in files then Err(ModelFileMissing(ModelFile(c)))
        else if files[ModelFile(c)] != ModelBytes(c) then
          Err(DigestMismatch(codec.digest(ModelBytes(c)), codec.digest(files[ModelFile(c)])))
        else OwnLoad(codec, job, trust)
  {
    var manifest := ManifestOf(codec, job);
    assert Load(codec, files, trust) == LoadNamed(codec, files, AsRead(manifest), trust);
    ModelFilesArePlain(ChooseFormat(codec, job.model));
    LoadNamedFile(codec, files, manifest, trust);
  }

  // ---------------------------------------------------------------- what a load returns

  /** Nothing about a manifest and the file it names speaks against loading, for a reader who trusts so much. */
  predicate Loadable(codec: Codec, files: Files, m: ManifestText, trust: Trust)
    requires m.Fields?
  {
    var json := m.format == Some("json");
    var name := if m.modelFile.Some? && m.modelFile.value != "" then m.modelFile.value
      else if json then "model.json" else "model.pkl";
    && (m.schema.Some? ==> m.schema.value == "lifecycle.Model/v1")
    && (m.format.Some? ==> m.format.value == "json" || m.format.value == "pickle")
    && PlainName(name) && name in files
    && (m.modelDigest.Some? ==> m.modelDigest.value == codec.digest(files[name]))
    && trust != SomethingElse && (json || trust == ExactlyTrue)
    && var decoded := if json then codec.fromJson(files[name], trust == ExactlyTrue) else codec.unpickle(files[name]);
    decoded.Ok? && (m.family.Some? ==> m.family.value == decoded.value.family)
  }

  /** In any directory, whoever wrote it, exactly what nothing speaks against loads. */
  lemma LoadsIff(codec: Codec, files: Files, trust: Trust)
    ensures Load(codec, files, trust).Ok? <==>
      "manifest.json" in files && codec.parse(files["manifest.json"]).Fields?
      && Loadable(codec, files, codec.parse(files["manifest.json"]), trust)
  {
    if MANIFEST in files && codec.parse(files[MANIFEST]).Fields? {
      NamedLoadsIff(codec, files, codec.parse(files[MANIFEST]), trust);
    }
  }

  lemma NamedLoadsIff(codec: Codec, files: Files, m: ManifestText, trust: Trust)
    requires m.Fields?
    ensures LoadNamed(codec, files, m, trust).Ok? <==> Loadable(codec, files, m, trust)
  {
  }

  /** What JSON text a model is written as: the encoder's own, when that text decodes again. */
  function ReadableText(codec: Codec, model: Fitted): Option<Bytes> {
    var text := codec.toJson(model);
    if text.Some? && codec.fromJson(text.value, true).Ok? then text else None
  }

  /** What a trusting or an untrusting reader decodes from what a deploy of `model` wrote. */
  function Decoded(codec: Codec, model: Fitted, trusted: bool): Result<Fitted, string>
    requires ReadableText(codec, model).None? ==> codec.pickle(model).Whole?
  {
    match ReadableText(codec, model)
    case Some(text) => codec.fromJson(text, trusted)
    case None => codec.unpickle(codec.pickle(model).bytes)
  }

  /** The position of a note that a load adds: dropped evidence, then the fallback, then a differing content hash. */
  function Kind(n: Note): nat {
    match n
    case Kept(_) => 0
    case ExportDropped(_) => 1
    case WrittenAs(_, _) => 2
    case ContentDiffers(_, _) => 3
  }

  /** The notes that a load adds to the deploy's own: each exactly when it is due, once, in order. */
  ghost predicate Disclose(added: seq<Note>, dropped: seq<string>, whyPickle: Option<string>,
                           recorded: Option<string>, found: Option<string>) {
    && (forall i, j :: 0 <= i < j < |added| ==> Kind(added[i]) < Kind(added[j]))
    && (forall t :: Kept(t) !in added)
    && (forall names :: ExportDropped(names) in added <==> names == dropped && names != [])
    && (forall f, why :: WrittenAs(f, why) in added <==> f == "pickle" && whyPickle == Some(why))
    && (forall f, r :: ContentDiffers(f, r) in added <==>
          recorded == Some(r) && r != "" && found == Some(f) && f != r)
  }

  /** Why a model is not written as JSON, if it is not. */
  function WhyNotJson(codec: Codec, model: Fitted): Option<string> {
    match codec.toJson(model)
    case None => Some(NoJsonForm(model.family))
    case Some(text) =>
      match codec.fromJson(text, true)
      case Ok(_) => None
      case Err(failure) => Some(WriteOnly(model.family, failure))
  }

  /** A loaded model under a deploy's records: the model is what the deploy's bytes decode to, the fit record is the
      deploy's, and the notes are the deploy's in order, followed by the disclosures. */
  ghost predicate Serves(codec: Codec, job: Job, model: Fitted, loaded: Loaded) {
    && loaded.model == model && loaded.fit == job.fit && |job.notes| <= |loaded.notes|
    && (forall i :: 0 <= i < |job.notes| ==> loaded.notes[i] == Kept(job.notes[i]))
    && Disclose(loaded.notes[|job.notes|..], job.notExported, WhyNotJson(codec, job.model),
         codec.contentHash(job.model), codec.contentHash(model))
  }

  /** Everything a reader can be told about what one deploy wrote. */
  lemma OwnLoadServes(codec: Codec, job: Job, trust: Trust)
    requires ReadableText(codec, job.model).None? ==> codec.pickle(job.model).Whole?
    ensures var r, decoded := OwnLoad(codec, job, trust), Decoded(codec, job.model, trust == ExactlyTrue);
      if trust == SomethingElse then r == Err(AmbiguousTrust)
      else if ReadableText(codec, job.model).None? && trust != ExactlyTrue then r == Err(PickleNeedsTrust)
      else if decoded.Err? then r == Err(CannotDecode(decoded.error))
      else if decoded.value.family != job.model.family then
        r == Err(FamilyMismatch(job.model.family, decoded.value.family))
      else r.Ok? && Serves(codec, job, decoded.value, r.value)
  {
    var decoded := Decoded(codec, job.model, trust == ExactlyTrue);
    OwnLoadDecodes(codec, job, trust);
    if decoded.Ok? { NotesDisclose(codec, job, decoded.value); }
  }

  lemma OwnLoadDecodes(codec: Codec, job: Job, trust: Trust)
    requires ReadableText(codec, job.model).None? ==> codec.pickle(job.model).Whole?
    ensures var decoded := Decoded(codec, job.model, trust == ExactlyTrue);
      OwnLoad(codec, job, trust) ==
        if trust == SomethingElse then Err(AmbiguousTrust)
        else if ReadableText(codec, job.model).None? && trust != ExactlyTrue then Err(PickleNeedsTrust)
        else if decoded.Err? then Err(CannotDecode(decoded.error))
        else if decoded.value.family != job.model.family then
          Err(FamilyMismatch(job.model.family, decoded.value.family))
        else
          Ok(Loaded(decoded.value, job.fit, NotesFor(codec, decoded.value, AsRead(ManifestOf(codec, job)))))
  {
    DecodesOwnBytes(codec, job, trust == ExactlyTrue);
  }

  /** Under a deploy's manifest its own bytes are decoded in its own format. */
  lemma DecodesOwnBytes(codec: Codec, job: Job, trusted: bool)
    requires ReadableText(codec, job.model).None? ==> codec.pickle(job.model).Whole?
    ensures var bytes, m := ModelBytes(ChooseFormat(codec, job.model)), AsRead(ManifestOf(codec, job));
      (FormatOf(m) == "json" <==> ReadableText(codec, job.model).Some?)
      && m.family == Some(job.model.family) && m.fit == job.fit
      && Decoded(codec, job.model, trusted) ==
        if FormatOf(m) == "json" then codec.fromJson(bytes, trusted) else codec.unpickle(bytes)
  {
  }

  lemma NotesDisclose(codec: Codec, job: Job, model: Fitted)
    requires !ChooseFormat(codec, job.model).NoForm?
    ensures var notes := NotesFor(codec, model, AsRead(ManifestOf(codec, job)));
      |job.notes| <= |notes| && (forall i :: 0 <= i < |job.notes| ==> notes[i] == Kept(job.notes[i]))
      && Disclose(notes[|job.notes|..], job.notExported, WhyNotJson(codec, job.model), codec.contentHash(job.model),
           codec.contentHash(model))
  {
    var m := AsRead(ManifestOf(codec, job));
    ReasonIsGiven(codec, job);
    AddedDisclose(codec, model, m, WhyNotJson(codec, job.model));
    AddedFollow(codec, model, m);
  }

  lemma AddedFollow(codec: Codec, model: Fitted, m: ManifestText)
    requires m.Fields?
    ensures var notes := NotesFor(codec, model, m);
      |m.notes| <= |notes| && (forall i :: 0 <= i < |m.notes| ==> notes[i] == Kept(m.notes[i]))
      && notes[|m.notes|..] == AddedNotes(codec, model, m)
  {
  }

  lemma AddedDisclose(codec: Codec, model: Fitted, m: ManifestText, whyPickle: Option<string>)
    requires m.Fields? && m.formatFallback == whyPickle
    requires whyPickle.Some? ==> m.format == Some("pickle") && whyPickle.value != ""
    ensures Disclose(AddedNotes(codec, model, m), m.notExported, whyPickle, m.contentHash, codec.contentHash(model))
  {
  }

  lemma ReasonIsGiven(codec: Codec, job: Job)
    requires !ChooseFormat(codec, job.model).NoForm?
    ensures ManifestOf(codec, job).formatFallback == WhyNotJson(codec, job.model)
    ensures WhyNotJson(codec, job.model).Some? ==>
      ManifestOf(codec, job).format == "pickle" && WhyNotJson(codec, job.model).value != ""
  {
  }

  /** Over any run of deploys, each cut off anywhere, a successful load serves the model of the last completed deploy:
      what its bytes decode to, which is of its family, under its fit record and notes. */
  lemma LoadServesLastCompleted(codec: Codec, run: seq<Event>, trust: Trust) returns (i: nat)
    requires forall e :: e in run ==> CannotBeConfused(codec, Directory(codec, run), e.job)
    requires Load(codec, Directory(codec, run), trust).Ok?
    ensures i < |run| && Completed(codec, run[i]) && forall j :: i < j < |run| ==> !Completed(codec, run[j])
    ensures var job := run[i].job;
      && (ReadableText(codec, job.model).Some? || (codec.pickle(job.model).Whole? && trust == ExactlyTrue))
      && var decoded := Decoded(codec, job.model, trust == ExactlyTrue);
      decoded.Ok? && decoded.value.family == job.model.family
      && Serves(codec, job, decoded.value, Load(codec, Directory(codec, run), trust).value)
  {
    i := LoadedIsWhatADeployWrote(codec, run, trust);
    OwnLoadOk(codec, run[i].job, trust);
  }

  /** A deploy's own load, when it succeeds. */
  lemma OwnLoadOk(codec: Codec, job: Job, trust: Trust)
    requires !ChooseFormat(codec, job.model).NoForm? && OwnLoad(codec, job, trust).Ok?
    ensures (ReadableText(codec, job.model).Some? || (codec.pickle(job.model).Whole? && trust == ExactlyTrue))
    ensures ReadableText(codec, job.model).None? ==> codec.pickle(job.model).Whole?
    ensures var decoded := Decoded(codec, job.model, trust == ExactlyTrue);
      decoded.Ok? && decoded.value.family == job.model.family
      && Serves(codec, job, decoded.value, OwnLoad(codec, job, trust).value)
  {
    OwnLoadServes(codec, job, trust);
  }

  /** Over any run of deploys, each cut off anywhere, a successful load returns what decodes from the bytes written by
      the completed deploy whose manifest it read, with that deploy's fit record and notes. */
  lemma LoadedIsWhatADeployWrote(codec: Codec, run: seq<Event>, trust: Trust) returns (i: nat)
    requires forall e :: e in run ==> CannotBeConfused(codec, Directory(codec, run), e.job)
    requires Load(codec, Directory(codec, run), trust).Ok?
    ensures i < |run| && Completed(codec, run[i])
    ensures forall j :: i < j < |run| ==> !Completed(codec, run[j])
    ensures Load(codec, Directory(codec, run), trust) == OwnLoad(codec, run[i].job, trust)
  {
    ManifestIsOfLastCompleted(codec, run);
    i := LastCompleted(codec, run).value;
    assert run[i] in run;
    LoadUnderManifest(codec, Directory(codec, run), run[i].job, trust);
  }

  /** With no completed deploy in it, a run leaves nothing that loads. */
  lemma NothingCompletedNothingLoads(codec: Codec, run: seq<Event>, trust: Trust)
    requires forall e :: e in run ==> !Completed(codec, e)
    ensures Load(codec, Directory(codec, run), trust).Err?
      && Load(codec, Directory(codec, run), trust).error.NoManifest?
  {
    ManifestIsOfLastCompleted(codec, run);
  }

  /** A redeploy that does not complete cannot change what a directory loads as: the earlier model, or a refusal. */
  lemma InterruptedRedeployNeverMixes(codec: Codec, files: Files, job: Job, e: Event, trust: Trust)
    requires !ChooseFormat(codec, job.model).NoForm? && !Completed(codec, e)
    requires MANIFEST in files && files[MANIFEST] == codec.render(ManifestOf(codec, job))
    requires CannotBeConfused(codec, files, job) && CannotBeConfused(codec, After(codec, files, e), job)
    requires Load(codec, files, trust).Ok?
    ensures Load(codec, After(codec, files, e), trust).Err?
      || Load(codec, After(codec, files, e), trust) == Load(codec, files, trust)
  {
    IncompleteSparesManifest(codec, files, e);
    LoadUnderManifest(codec, files, job, trust);
    LoadUnderManifest(codec, After(codec, files, e), job, trust);
  }

  /** After an uninterrupted deploy exactly one model file is there, and every check before decoding passes: the reader
      gets exactly what the bytes decode to. */
  lemma UninterruptedDeployIsReadable(codec: Codec, files: Files, job: Job, trust: Trust)
    requires !ChooseFormat(codec, job.model).NoForm? && ReadsBack(codec, ManifestOf(codec, job))
    ensures var c := ChooseFormat(codec, job.model);
      var after := After(codec, files, Event(job, RanThrough));
      ModelFile(c) in after && OtherFile(c) !in after && after[ModelFile(c)] == ModelBytes(c)
      && Load(codec, after, trust) == OwnLoad(codec, job, trust)
  {
    DeployWrites(codec, job, files);
    LoadUnderManifest(codec, Deployed(codec, job, files), job, trust);
  }

  predicate IsFamily(r: Result<Fitted, string>, family: string) {
    r.Ok? && r.value.family == family
  }

  /** When a finished deploy loads: a JSON artifact loads for a trusting reader exactly when its text decodes to the
      family that was deployed, the one thing the read-back does not check. A pickle is never read back, so it loads
      exactly when trusted and its bytes happen to decode to that family. */
  lemma WhenADeployLoads(codec: Codec, files: Files, job: Job, trust: Trust)
    requires !ChooseFormat(codec, job.model).NoForm? && ReadsBack(codec, ManifestOf(codec, job))
    ensures var c := ChooseFormat(codec, job.model);
      Load(codec, After(codec, files, Event(job, RanThrough)), trust).Ok? <==> trust != SomethingElse && match c {
        case Json(text) => IsFamily(codec.fromJson(text, trust == ExactlyTrue), job.model.family)
        case Pickle(bytes, _) => trust == ExactlyTrue && IsFamily(codec.unpickle(bytes), job.model.family)
      }
  {
    UninterruptedDeployIsReadable(codec, files, job, trust);
  }

  /** A codec whose manifests read back; its encoders and decoders are given. */
  function PlainCodec(
    toJson: Fitted -> Option<Bytes>, fromJson: (Bytes, bool) -> Result<Fitted, string>, pickle: Fitted -> Pickled,
    unpickle: Bytes -> Result<Fitted, string>, job: Job): (codec: Codec)
    ensures ReadsBack(codec, ManifestOf(codec, job))
    ensures codec.toJson == toJson && codec.fromJson == fromJson && codec.pickle == pickle && codec.unpickle == unpickle
  {
    var blank := Codec(toJson, fromJson, pickle, unpickle, b => "", m => None, m => [], b => Unreadable);
    var read := AsRead(ManifestOf(blank, job));
    var codec := blank.(parse := b => read);
    assert ChooseFormat(codec, job.model) == ChooseFormat(blank, job.model);
    codec
  }

  /** A deploy that reports success and whose artifact no reader can load: a pickle that does not unpickle. */
  lemma PickleNobodyCanLoad() returns (codec: Codec, job: Job)
    ensures ReadsBack(codec, ManifestOf(codec, job)) && ChooseFormat(codec, job.model).Pickle?
    ensures Answer(codec, job, None).Ok?
    ensures forall trust :: Load(codec, After(codec, map[], Event(job, RanThrough)), trust).Err?
  {
    job := Job(Fitted("Leaf", []), 0, "", [], [], "0");
    codec := PlainCodec(m => None, (b, t) => Err("no"), m => Whole([]), b => Err("no such attribute"), job);
    forall trust ensures Load(codec, After(codec, map[], Event(job, RanThrough)), trust).Err? {
      WhenADeployLoads(codec, map[], job, trust);
    }
  }

  /** And one written as JSON. The encoder writes an instance of any subclass of `tuple` as a plain tuple, so the text
      of such a model reads back, but as a tuple: whatever the subclass is called, the family check refuses it. */
  lemma JsonNobodyCanLoad(subclass: string, items: Bytes) returns (codec: Codec, job: Job)
    requires subclass != "tuple"
    ensures job.model == Fitted(subclass, items)
    ensures ReadsBack(codec, ManifestOf(codec, job)) && ChooseFormat(codec, job.model).Json?
    ensures Answer(codec, job, None).Ok?
    ensures forall trust :: Load(codec, After(codec, map[], Event(job, RanThrough)), trust).Err?
  {
    job := Job(Fitted(subclass, items), 0, "", [], [], "0");
    codec := PlainCodec(
      (m: Fitted) => Some(m.state), (b, t) => Ok(Fitted("tuple", b)), m => Whole([]), b => Err("no"), job);
    forall trust ensures Load(codec, After(codec, map[], Event(job, RanThrough)), trust).Err? {
      WhenADeployLoads(codec, map[], job, trust);
    }
  }

  // ---------------------------------------------------------------- the directory as it is written

  /** An exception strikes the atomic write after `fault` operations on the temporary file. */
  predicate Raises(text: Bytes, fault: Option<nat>) {
    fault.Some? && fault.value <= 1 + |text|
  }

  function Replacing(text: Bytes, nonce: string): seq<Op> {
    Write(TempName(nonce), text) + [Rename(TempName(nonce), MANIFEST)]
  }

  /** A write cut short is the write of a prefix. */
  lemma CutWrite(name: string, bytes: Bytes, done: nat)
    requires 0 < done <= 1 + |bytes|
    ensures Cut(Write(name, bytes), done) == Write(name, bytes[..done - 1])
  {
    assert |Write(name, bytes)| == 1 + |bytes|;
  }

  /** The operations on the model files, before the manifest is begun. */
  function ModelStage(c: Choice): seq<Op> {
    Write(ModelFile(c), ModelBytes(c)) + [Unlink(OtherFile(c))]
  }

  /** How a deploy ends when an exception strikes its manifest write. */
  function EndingOf(codec: Codec, job: Job, fault: Option<nat>): Ending {
    var c := ChooseFormat(codec, job.model);
    if !c.NoForm? && Raises(codec.render(ManifestOf(codec, job)), fault) then Raised(|ModelStage(c)| + fault.value)
    else RanThrough
  }

  /** The states that an event takes the directory through. */
  function Seen(codec: Codec, files: Files, e: Event): seq<Files> {
    var states := States(files, Performed(codec, e));
    if e.ending.Raised? then states + [After(codec, files, e)] else states
  }

  predicate IsCut(codec: Codec, files: Files, job: Job, ending: Ending, state: Files) {
    state == After(codec, files, Event(job, ending))
  }

  lemma PlanCut(files: Files, plan: seq<Op>, ops: seq<Op>, i: nat)
    requires i < |ops| <= |plan| && ops == plan[..|ops|]
    ensures States(files, ops)[i] == ApplyAll(files, Cut(plan, i + 1))
  {
    StatesAreCuts(files, ops, i);
    assert ops[..i + 1] == plan[..i + 1];
  }

  /** Every state seen during an event is the state left by that deploy, cut off at some point. */
  lemma SeenAreCuts(codec: Codec, files: Files, e: Event, i: nat) returns (ending: Ending)
    requires i < |Seen(codec, files, e)|
    ensures IsCut(codec, files, e.job, ending, Seen(codec, files, e)[i])
  {
    var ops := Performed(codec, e);
    if i < |ops| {
      ending := Died(i + 1);
      PlanCut(files, Plan(codec, e.job), ops, i);
      DiedLeaves(codec, files, e.job, i + 1, States(files, ops)[i]);
    } else {
      ending := e.ending;
    }
  }

  lemma DiedLeaves(codec: Codec, files: Files, job: Job, done: nat, state: Files)
    requires state == ApplyAll(files, Cut(Plan(codec, job), done))
    ensures IsCut(codec, files, job, Died(done), state)
  {
  }

  /** A load that falls entirely between two operations of a deploy, after any run of earlier ones, is promised the
      same: the model and records of one deploy that had completed by then, or a refusal. */
  lemma UndisturbedReader(codec: Codec, run: seq<Event>, e: Event, i: nat, trust: Trust)
    returns (history: seq<Event>, k: nat)
    requires i < |Seen(codec, Directory(codec, run), e)|
    requires var state := Seen(codec, Directory(codec, run), e)[i];
      Load(codec, state, trust).Ok? && CannotBeConfused(codec, state, e.job)
      && forall x :: x in run ==> CannotBeConfused(codec, state, x.job)
    ensures k < |history| == |run| + 1 && history[..|run|] == run && history[|run|].job == e.job
    ensures Completed(codec, history[k]) && forall j :: k < j < |history| ==> !Completed(codec, history[j])
    ensures Load(codec, Seen(codec, Directory(codec, run), e)[i], trust) == OwnLoad(codec, history[k].job, trust)
  {
    var ending := SeenAreCuts(codec, Directory(codec, run), e, i);
    history := run + [Event(e.job, ending)];
    assert history[..|history| - 1] == run;
    assert Directory(codec, history) == Seen(codec, Directory(codec, run), e)[i];
    k := LoadedIsWhatADeployWrote(codec, history, trust);
  }

  /** The states of the model stage, and where it leaves the directory. */
  lemma ModelStageStates(files: Files, c: Choice, staged: Files)
    requires staged == files[ModelFile(c) := ModelBytes(c)] - {OtherFile(c)}
    ensures ApplyAll(files, ModelStage(c)) == staged
    ensures States(files, ModelStage(c)) ==
      States(files, Write(ModelFile(c), ModelBytes(c)))
        + States(files[ModelFile(c) := ModelBytes(c)], [Unlink(OtherFile(c))])
  {
    var write := Write(ModelFile(c), ModelBytes(c));
    WriteWrites(files, ModelFile(c), ModelBytes(c));
    OneOp(files[ModelFile(c) := ModelBytes(c)], Unlink(OtherFile(c)));
    ApplyConcat(files, write, [Unlink(OtherFile(c))]);
    StatesConcat(files, write, [Unlink(OtherFile(c))]);
  }

  lemma PlanIsStages(codec: Codec, job: Job, c: Choice, text: Bytes)
    requires c == ChooseFormat(codec, job.model) && !c.NoForm? && text == codec.render(ManifestOf(codec, job))
    ensures Plan(codec, job) == ModelStage(c) + Replacing(text, job.nonce)
  {
  }

  lemma StruckSplit(stage: seq<Op>, write: seq<Op>, last: seq<Op>, done: nat)
    requires done <= |write|
    ensures Cut(stage + (write + last), |stage| + done) == stage + Cut(write, done)
  {
  }

  /** A deploy whose manifest write is struck by an exception performs the model stage and part of the write. */
  lemma StruckOps(codec: Codec, job: Job, fault: Option<nat>, c: Choice, text: Bytes)
    requires c == ChooseFormat(codec, job.model) && !c.NoForm? && text == codec.render(ManifestOf(codec, job))
    requires Raises(text, fault)
    ensures EndingOf(codec, job, fault).Raised?
    ensures Performed(codec, Event(job, EndingOf(codec, job, fault))) ==
      ModelStage(c) + Cut(Write(TempName(job.nonce), text), fault.value)
  {
    var write := Write(TempName(job.nonce), text);
    PlanIsStages(codec, job, c, text);
    StruckSplit(ModelStage(c), write, [Rename(TempName(job.nonce), MANIFEST)], fault.value);
  }

  /** A deploy that runs through performs the model stage and the whole write. */
  lemma ThroughOps(codec: Codec, job: Job, fault: Option<nat>, c: Choice, text: Bytes)
    requires c == ChooseFormat(codec, job.model) && !c.NoForm? && text == codec.render(ManifestOf(codec, job))
    requires !Raises(text, fault)
    ensures EndingOf(codec, job, fault).RanThrough?
    ensures Performed(codec, Event(job, EndingOf(codec, job, fault))) == ModelStage(c) + Replacing(text, job.nonce)
  {
    PlanIsStages(codec, job, c, text);
  }

  /** The effect of an event, in two stages. */
  lemma TwoStages(codec: Codec, files: Files, e: Event, stage: seq<Op>, rest: seq<Op>, staged: Files)
    requires Performed(codec, e) == stage + rest && ApplyAll(files, stage) == staged
    ensures After(codec, files, e) == Tidied(ApplyAll(staged, rest), e)
    ensures Seen(codec, files, e) ==
      States(files, stage)
      + (States(staged, rest) + if e.ending.Raised? then [Tidied(ApplyAll(staged, rest), e)] else [])
  {
    ApplyConcat(files, stage, rest);
    StatesConcat(files, stage, rest);
    Regroup(States(files, stage), States(staged, rest), [Tidied(ApplyAll(staged, rest), e)]);
    assert States(staged, rest) + [] == States(staged, rest);
  }

  lemma Since(past: seq<Files>, a: seq<Files>, b: seq<Files>, trail: seq<Files>)
    requires trail == past + a + b
    ensures past <= trail && trail[|past|..] == a + b
  {
  }

  function Answer(codec: Codec, job: Job, fault: Option<nat>): Result<Option<string>, string> {
    var c := ChooseFormat(codec, job.model);
    if c.NoForm? then Err(c.reason)
    else if Raises(codec.render(ManifestOf(codec, job)), fault) then Err("OSError")
    else Ok(ManifestOf(codec, job).formatFallback)
  }

  /** What one call of deploy does: the directory it leaves, the states it passes through, and its answer. */
  predicate Performs(
    codec: Codec, job: Job, fault: Option<nat>, before: Files, after: Files, seen: seq<Files>,
    r: Result<Option<string>, string>)
  {
    var e := Event(job, EndingOf(codec, job, fault));
    after == After(codec, before, e) && seen == Seen(codec, before, e) && r == Answer(codec, job, fault)
  }

  lemma NoFormPerforms(codec: Codec, job: Job, fault: Option<nat>, before: Files, c: Choice)
    requires c == ChooseFormat(codec, job.model) && c.NoForm?
    ensures Performs(
      codec, job, fault, before, before[PICKLE_FILE := c.partial], States(before, Write(PICKLE_FILE, c.partial)),
      Err(c.reason))
  {
    WriteWrites(before, PICKLE_FILE, c.partial);
    assert Plan(codec, job) == Write(PICKLE_FILE, c.partial);
  }

  /** What the atomic write of a text leaves, and the states it passes through. */
  function AfterWrite(files: Files, text: Bytes, nonce: string, fault: Option<nat>): Files {
    var rest := files - {TempName(nonce)};
    if Raises(text, fault) then rest else rest[MANIFEST := text]
  }

  function SeenInWrite(files: Files, text: Bytes, nonce: string, fault: Option<nat>): seq<Files> {
    if Raises(text, fault) then
      States(files, Cut(Write(TempName(nonce), text), fault.value)) + [files - {TempName(nonce)}]
    else States(files, Replacing(text, nonce))
  }

  lemma Regroup(a: seq<Files>, b: seq<Files>, c: seq<Files>)
    ensures a + b + c == a + (b + c)
  {
  }

  /** What the write leaves is what its operations leave. */
  lemma WriteLeaves(files: Files, text: Bytes, nonce: string, fault: Option<nat>)
    ensures AfterWrite(files, text, nonce, fault) ==
      if Raises(text, fault) then ApplyAll(files, Cut(Write(TempName(nonce), text), fault.value)) - {TempName(nonce)}
      else ApplyAll(files, Replacing(text, nonce))
  {
    if Raises(text, fault) {
      CutLeavesTemp(files, TempName(nonce), text, fault.value);
    } else {
      WriteWrites(files, TempName(nonce), text);
      RenameFinishes(files, Write(TempName(nonce), text), files, TempName(nonce), text, MANIFEST);
    }
  }

  /** What the model stage and the atomic write do together is what the deploy does. */
  lemma StagesPerform(
    codec: Codec, job: Job, fault: Option<nat>, before: Files, c: Choice, text: Bytes, staged: Files, after: Files,
    seen: seq<Files>, r: Result<Option<string>, string>)
    requires c == ChooseFormat(codec, job.model) && !c.NoForm? && text == codec.render(ManifestOf(codec, job))
    requires ApplyAll(before, ModelStage(c)) == staged && after == AfterWrite(staged, text, job.nonce, fault)
    requires seen == States(before, ModelStage(c)) + SeenInWrite(staged, text, job.nonce, fault)
    requires r == Answer(codec, job, fault)
    ensures Performs(codec, job, fault, before, after, seen, r)
  {
    var e := Event(job, EndingOf(codec, job, fault));
    WriteLeaves(staged, text, job.nonce, fault);
    if Raises(text, fault) {
      StruckOps(codec, job, fault, c, text);
      TwoStages(codec, before, e, ModelStage(c), Cut(Write(TempName(job.nonce), text), fault.value), staged);
    } else {
      ThroughOps(codec, job, fault, c, text);
      TwoStages(codec, before, e, ModelStage(c), Replacing(text, job.nonce), staged);
    }
  }

  /** The end of a deploy, seen from its beginning: the trail has grown by exactly the states of the deploy. */
  lemma FinishPerforms(
    codec: Codec, job: Job, c: Choice, fault: Option<nat>, text: Bytes, before: Files, staged: Files, past: seq<Files>,
    trail: seq<Files>)
    requires c == ChooseFormat(codec, job.model) && !c.NoForm? && text == codec.render(ManifestOf(codec, job))
    requires staged == before[ModelFile(c) := ModelBytes(c)] - {OtherFile(c)}
    requires trail == past + States(before, Write(ModelFile(c), ModelBytes(c)))
      + States(before[ModelFile(c) := ModelBytes(c)], [Unlink(OtherFile(c))])
      + SeenInWrite(staged, text, job.nonce, fault)
    ensures past <= trail
    ensures Performs(
      codec, job, fault, before, AfterWrite(staged, text, job.nonce, fault), trail[|past|..], Answer(codec, job, fault))
  {
    ModelStageStates(before, c, staged);
    var begun, written := States(before, ModelStage(c)), SeenInWrite(staged, text, job.nonce, fault);
    Regroup(
      past, States(before, Write(ModelFile(c), ModelBytes(c))),
      States(before[ModelFile(c) := ModelBytes(c)], [Unlink(OtherFile(c))]));
    Since(past, begun, written, trail);
    StagesPerform(
      codec, job, fault, before, c, text, staged, AfterWrite(staged, text, job.nonce, fault), begun + written,
      Answer(codec, job, fault));
  }

  /** Whatever part of the temporary file was written, removing it restores everything else. */
  lemma CutLeavesTemp(files: Files, temp: string, text: Bytes, done: nat)
    requires done <= 1 + |text|
    ensures ApplyAll(files, Cut(Write(temp, text), done)) - {temp} == files - {temp}
  {
    if done > 0 {
      CutWrite(temp, text, done);
      WriteWrites(files, temp, text[..done - 1]);
    }
  }

  /** A directory under one writer. The trail records every state that a reader could have come upon. */
  class Store {
    var files: Files
    ghost var trail: seq<Files>

    constructor ()
      ensures files == map[] && trail == []
    {
      files := map[];
      trail := [];
    }

    method WriteFile(name: string, bytes: Bytes)
      modifies this
      ensures files == old(files)[name := bytes]
      ensures files == ApplyAll(old(files), Write(name, bytes))
      ensures trail == old(trail) + States(old(files), Write(name, bytes))
    {
      WriteWrites(files, name, bytes);
      trail := trail + States(files, Write(name, bytes));
      files := files[name := bytes];
    }

    method RemoveIfPresent(name: string)
      modifies this
      ensures files == old(files) - {name}
      ensures trail == old(trail) + States(old(files), [Unlink(name)])
    {
      if name in files {
        files := files - {name};
      }
      trail := trail + [files];
    }

    method Promote(src: string, dst: string)
      requires src in files
      modifies this
      ensures files == Apply(old(files), Rename(src, dst))
      ensures trail == old(trail) + States(old(files), [Rename(src, dst)])
    {
      files := (files - {src})[dst := files[src]];
      trail := trail + [files];
    }

    /** Writes a text beside its destination and renames it there. An exception after `fault` of the operations removes
        the temporary file and leaves the destination as it was. */
    method WriteTextAtomically(text: Bytes, nonce: string, fault: Option<nat>) returns (raised: bool)
      modifies this
      ensures raised == Raises(text, fault)
      ensures files == AfterWrite(old(files), text, nonce, fault)
      ensures trail == old(trail) + SeenInWrite(old(files), text, nonce, fault)
    {
      var temp := TempName(nonce);
      raised := Raises(text, fault);
      if raised {
        if fault.value > 0 {
          CutWrite(temp, text, fault.value);
          WriteFile(temp, text[..fault.value - 1]);
        }
        RemoveIfPresent(temp);
      } else {
        StatesConcat(files, Write(temp, text), [Rename(temp, MANIFEST)]);
        WriteFile(temp, text);
        Promote(temp, MANIFEST);
      }
    }

    /** Writes the model in the first format that round-trips. */
    method WriteModel(codec: Codec, model: Fitted) returns (c: Choice)
      modifies this
      ensures c == ChooseFormat(codec, model)
      ensures files == old(files)[ModelFile(c) := ModelBytes(c)]
      ensures trail == old(trail) + States(old(files), Write(ModelFile(c), ModelBytes(c)))
    {
      var encoded := codec.toJson(model);
      var reason := NoJsonForm(model.family);
      if encoded.Some? {
        var back := codec.fromJson(encoded.value, true);
        if back.Ok? {
          WriteFile(JSON_FILE, encoded.value);
          return Json(encoded.value);
        }
        reason := WriteOnly(model.family, back.error);
      }
      var pickled := codec.pickle(model);
      match pickled
      case Whole(bytes) =>
        WriteFile(PICKLE_FILE, bytes);
        c := Pickle(bytes, reason);
      case Broken(partial) =>
        WriteFile(PICKLE_FILE, partial);
        c := NoForm(partial, reason);
    }

    /** The manifest, its digest taken of the model file as it lies in the directory. */
    method DescribeModel(codec: Codec, job: Job, c: Choice) returns (m: Manifest)
      requires c == ChooseFormat(codec, job.model) && ModelFile(c) in files && files[ModelFile(c)] == ModelBytes(c)
      ensures m == ManifestOf(codec, job)
    {
      var digest := codec.digest(files[ModelFile(c)]);
      m := Manifest(
        job.model.family, job.createdAt, job.fit, job.notes, if c.Json? then "json" else "pickle",
        if c.Json? then None else Some(c.reason), ModelFile(c), digest, codec.contentHash(job.model), job.notExported,
        SCHEMA);
    }

    /** One deploy: model file, removal of the other format, digest of the file as it lies in the directory, manifest
        last. */
    method Deploy(codec: Codec, job: Job, fault: Option<nat>) returns (r: Result<Option<string>, string>)
      modifies this
      ensures old(trail) <= trail
      ensures Performs(codec, job, fault, old(files), files, trail[|old(trail)|..], r)
    {
      ghost var before, past := files, trail;
      var c := WriteModel(codec, job.model);
      if c.NoForm? {
        NoFormPerforms(codec, job, fault, before, c);
        assert trail[|past|..] == States(before, Write(PICKLE_FILE, c.partial));
        return Err(c.reason);
      }
      r := Finish(codec, job, c, fault, before, past);
    }

    /** A deploy from the point where its model file is written. */
    method Finish(codec: Codec, job: Job, c: Choice, fault: Option<nat>, ghost before: Files, ghost past: seq<Files>)
      returns (r: Result<Option<string>, string>)
      requires c == ChooseFormat(codec, job.model) && !c.NoForm?
      requires files == before[ModelFile(c) := ModelBytes(c)]
      requires trail == past + States(before, Write(ModelFile(c), ModelBytes(c)))
      modifies this
      ensures past <= trail
      ensures Performs(codec, job, fault, before, files, trail[|past|..], r)
    {
      RemoveIfPresent(OtherFile(c));
      var m := DescribeModel(codec, job, c);
      var text := codec.render(m);
      ghost var staged := files;
      var raised := WriteTextAtomically(text, job.nonce, fault);
      FinishPerforms(codec, job, c, fault, text, before, staged, past, trail);
      r := if raised then Err("OSError") else Ok(m.formatFallback);
    }
  }
}
