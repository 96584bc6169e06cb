/**
 * The chain a passing receipt rests on: the archive's members match the wheel's RECORD, the wheel's RECORD matches the
 * installed RECORD, and the installed RECORD matches the installed files.
 */
module Receipt {
  import opened Outcomes
  import opened ByteStrings
  import opened Characters
  import B = Base64Url

  // ---------------------------------------------------------------- names

  predicate StartsWith(s: string, prefix: string) {
    prefix <= s
  }

  predicate EndsWith(s: string, suffix: string) {
    |suffix| <= |s| && s[|s| - |suffix|..] == suffix
  }

  predicate Contains(s: string, part: string) {
    StartsWith(s, part) || (s != [] && Contains(s[1..], part))
  }

  /** The segments of a name between separators; there is always at least one. */
  function Split(s: string, sep: char): (parts: seq<string>)
    ensures |parts| >= 1
  {
    if s == [] then [[]]
    else
      var rest := Split(s[1..], sep);
      if s[0] == sep then [[]] + rest else [[s[0]] + rest[0]] + rest[1..]
  }

  function Join(parts: seq<string>, sep: char): string
    requires |parts| >= 1
  {
    if |parts| == 1 then parts[0] else parts[0] + [sep] + Join(parts[1..], sep)
  }

  lemma {:induction false} SplitJoin(parts: seq<string>, sep: char)
    requires |parts| >= 1 && forall p :: p in parts ==> sep !in p
    ensures Split(Join(parts, sep), sep) == parts
  {
    assert parts[0] in parts;
    if |parts| == 1 {
      SplitWord(parts[0], [], sep);
      assert parts == [parts[0]];
    } else {
      SplitJoin(parts[1..], sep);
      SplitWord(parts[0], Join(parts[1..], sep), sep);
      JoinHead(parts, sep);
    }
  }

  lemma JoinHead(parts: seq<string>, sep: char)
    requires |parts| >= 2
    ensures Join(parts, sep) == parts[0] + ([sep] + Join(parts[1..], sep)) && parts == [parts[0]] + parts[1..]
  {
  }

  /** A word without separators is the first segment of what it begins. */
  lemma {:induction false} SplitWord(word: string, rest: string, sep: char)
    requires sep !in word
    ensures Split(word, sep) == [word]
    ensures Split(word + ([sep] + rest), sep) == [word] + Split(rest, sep)
  {
    if word == [] {
      assert word + ([sep] + rest) == [sep] + rest;
      assert ([sep] + rest)[1..] == rest;
    } else {
      var s := word + ([sep] + rest);
      assert word[0] in word;
      assert s[0] == word[0] && s[1..] == word[1..] + ([sep] + rest);
      SplitWord(word[1..], rest, sep);
      assert [word[0]] + word[1..] == word;
    }
  }

  /** The source a byte-compiled file was made from, if its name decomposes. */
  function BytecodeSourcePath(name: string): Option<string> {
    var parts := Split(name, '/');
    if |parts| < 2 || parts[|parts| - 2] != "__pycache__" then None
    else
      var stem := Split(parts[|parts| - 1], '.')[0];
      if stem == [] then None else Some(Join(parts[..|parts| - 2] + [stem + ".py"], '/'))
  }

  /** The name that byte-compilation gives a module's cache file leads back to the module. */
  lemma SourceOfCompiled(package: seq<string>, stem: string, tag: string)
    requires forall p :: p in package ==> '/' !in p
    requires stem != [] && '/' !in stem && '.' !in stem && '/' !in tag
    ensures BytecodeSourcePath(Join(package + ["__pycache__", stem + "." + tag], '/')) ==
      Some(Join(package + [stem + ".py"], '/'))
  {
    var parts := package + ["__pycache__", stem + "." + tag];
    SplitJoin(parts, '/');
    SplitWord(stem, tag, '.');
    assert stem + "." + tag == stem + (['.'] + tag);
    assert parts[..|parts| - 2] == package;
  }

  predicate IsInstallerBytecode(name: string) {
    var parts := Split(name, '/');
    EndsWith(name, ".pyc") && |parts| >= 2 && parts[|parts| - 2] == "__pycache__"
  }

  predicate IsRecordName(name: string) {
    EndsWith(name, ".dist-info/RECORD")
  }

  predicate IsDirectory(name: string) {
    EndsWith(name, "/")
  }

  /** A name that would be extracted outside the archive root. */
  predicate Escapes(name: string) {
    StartsWith(name, "/") || StartsWith(name, "\\") || ".." in Split(name, '/') || (|name| > 1 && name[1] == ':')
  }

  // ---------------------------------------------------------------- the wheel

  datatype Member = Member(name: string, data: Bytes)

  datatype Row = Row(name: string, hash: string, size: string)

  datatype Refusal =
    | NotOneRecord | RecordUnreadable | RowFields | UnsupportedHash | ListedTwice | MalformedHash | NotSha256
    | HashOmitted | NotOneUnhashedRow | NoHashedEntry
    | DuplicateMember | EscapesRoot | FalseClaim | Unclaimed

  type Hashes = map<string, Bytes>

  /** Hash functions and the CSV reader, used but not defined here. */
  datatype Tools = Tools(sha: Bytes -> Bytes, csv: Bytes -> Option<seq<seq<string>>>)

  predicate BlankLine(fields: seq<string>) {
    fields == [] || (|fields| == 1 && forall c :: c in fields[0] ==> IsSpace(c))
  }

  /** The rows of a RECORD: blank lines are skipped and every other line has exactly three fields. */
  function RecordRows(lines: seq<seq<string>>): Result<seq<Row>, Refusal> {
    if lines == [] then Ok([])
    else
      var before, line := RecordRows(lines[..|lines| - 1]), lines[|lines| - 1];
      if before.Err? || BlankLine(line) then before
      else if |line| != 3 then Err(RowFields)
      else Ok(before.value + [Row(line[0], line[1], line[2])])
  }

  /** The part of a text before the first '=', and the part after it. */
  function Partition(s: string): (string, string) {
    if s == [] then ([], [])
    else if s[0] == '=' then ([], s[1..])
    else
      var (before, after) := Partition(s[1..]);
      ([s[0]] + before, after)
  }

  function AddHash(h: Hashes, row: Row): Result<Hashes, Refusal> {
    var (algorithm, value) := Partition(row.hash);
    if algorithm != "sha256" || value == [] then Err(UnsupportedHash)
    else if row.name in h then Err(ListedTwice)
    else
      var bytes := B.Decode(B.Repad(value));
      if bytes.None? then Err(MalformedHash)
      else if |bytes.value| != 32 then Err(NotSha256)
      else Ok(h[row.name := bytes.value])
  }

  /** The hashes that the rows declare, in the order of the rows. */
  function DeclaredHashes(rows: seq<Row>): Result<Hashes, Refusal> {
    if rows == [] then Ok(map[])
    else
      var before, row := DeclaredHashes(rows[..|rows| - 1]), rows[|rows| - 1];
      if before.Err? || row.hash == [] then before else AddHash(before.value, row)
  }

  function UnhashedNames(rows: seq<Row>): seq<string> {
    if rows == [] then []
    else
      var before, row := UnhashedNames(rows[..|rows| - 1]), rows[|rows| - 1];
      if row.hash == [] then before + [row.name] else before
  }

  function RecordMembers(archive: seq<Member>): (found: seq<Member>)
    ensures forall m :: m in found <==> m in archive && IsRecordName(m.name)
  {
    if archive == [] then []
    else
      var rest := RecordMembers(archive[1..]);
      assert archive == [archive[0]] + archive[1..];
      if IsRecordName(archive[0].name) then [archive[0]] + rest else rest
  }

  function FilesOf(archive: seq<Member>): (found: seq<Member>)
    ensures forall m :: m in found <==> m in archive && !IsDirectory(m.name)
  {
    if archive == [] then []
    else
      var rest := FilesOf(archive[1..]);
      assert archive == [archive[0]] + archive[1..];
      if IsDirectory(archive[0].name) then rest else [archive[0]] + rest
  }

  predicate DistinctNames(members: seq<Member>) {
    forall i, j :: 0 <= i < j < |members| ==> members[i].name != members[j].name
  }

  predicate Holds(members: seq<Member>, name: string) {
    exists m :: m in members && m.name == name
  }

  /** A declared hash is that of every member so named. */
  predicate Matches(tools: Tools, members: seq<Member>, name: string, declared: Bytes) {
    forall m :: m in members && m.name == name ==> tools.sha(m.data) == declared
  }

  /** What is wrong with an archive under the hashes and the unhashed names that its RECORD declares. */
  function ArchiveFault(tools: Tools, members: seq<Member>, h: Hashes, unhashed: seq<string>): Option<Refusal> {
    if !DistinctNames(members) then Some(DuplicateMember)
    else if (exists m :: m in members && Escapes(m.name)) || (exists n :: n in h && Escapes(n)) then Some(EscapesRoot)
    else if exists n :: n in h && !(Holds(members, n) && Matches(tools, members, n, h[n])) then Some(FalseClaim)
    else if exists m :: m in members && m.name !in h && m.name !in unhashed then Some(Unclaimed)
    else None
  }

  function RowsFault(h: Hashes, unhashed: seq<string>): Option<Refusal> {
    if exists n :: n in unhashed && !IsRecordName(n) then Some(HashOmitted)
    else if |unhashed| != 1 then Some(NotOneUnhashedRow)
    else if h == map[] then Some(NoHashedEntry)
    else None
  }

  /** The hashes a wheel's RECORD declares, once every claim has been checked against the archive. */
  function WheelHashes(tools: Tools, archive: seq<Member>): Result<Hashes, Refusal> {
    var records := RecordMembers(archive);
    if |records| != 1 then Err(NotOneRecord)
    else
      var lines := tools.csv(records[0].data);
      if lines.None? then Err(RecordUnreadable)
      else
        var rows := RecordRows(lines.value);
        if rows.Err? then Err(rows.error) else CheckedHashes(tools, archive, rows.value)
  }

  function CheckedHashes(tools: Tools, archive: seq<Member>, rows: seq<Row>): Result<Hashes, Refusal> {
    var h, unhashed := DeclaredHashes(rows), UnhashedNames(rows);
    if h.Err? then h
    else
      var fault := RowsFault(h.value, unhashed);
      if fault.Some? then Err(fault.value)
      else
        var flaw := ArchiveFault(tools, FilesOf(archive), h.value, unhashed);
        if flaw.Some? then Err(flaw.value) else h
  }

  /** An accepted wheel declares the hash of every file it holds except its RECORD, and every hash it declares is that
      of a file it holds. */
  lemma AcceptedWheelIsCovered(tools: Tools, archive: seq<Member>, m: Member)
    requires WheelHashes(tools, archive).Ok?
    requires m in archive && !IsDirectory(m.name)
    ensures var h := WheelHashes(tools, archive).value;
      if m.name in h then h[m.name] == tools.sha(m.data) else RecordMembers(archive) == [m]
  {
    var rows := AcceptedRows(tools, archive);
    CoveredMember(tools, FilesOf(archive), WheelHashes(tools, archive).value, UnhashedNames(rows), m);
    if IsRecordName(m.name) { OnlyRecord(archive, m); }
  }

  lemma OnlyRecord(archive: seq<Member>, m: Member)
    requires |RecordMembers(archive)| == 1 && m in archive && IsRecordName(m.name)
    ensures RecordMembers(archive) == [m]
  {
    assert m in RecordMembers(archive);
  }

  lemma AcceptedRows(tools: Tools, archive: seq<Member>) returns (rows: seq<Row>)
    requires WheelHashes(tools, archive).Ok?
    ensures DeclaredHashes(rows) == WheelHashes(tools, archive) && |RecordMembers(archive)| == 1
    ensures RowsFault(WheelHashes(tools, archive).value, UnhashedNames(rows)).None?
    ensures ArchiveFault(tools, FilesOf(archive), WheelHashes(tools, archive).value, UnhashedNames(rows)).None?
  {
    rows := RecordRows(tools.csv(RecordMembers(archive)[0].data).value).value;
    assert WheelHashes(tools, archive) == CheckedHashes(tools, archive, rows);
  }

  lemma CoveredMember(tools: Tools, members: seq<Member>, h: Hashes, unhashed: seq<string>, m: Member)
    requires ArchiveFault(tools, members, h, unhashed).None? && RowsFault(h, unhashed).None? && m in members
    ensures m.name in h ==> h[m.name] == tools.sha(m.data)
    ensures m.name !in h ==> IsRecordName(m.name)
  {
    assert m.name in h ==> Matches(tools, members, m.name, h[m.name]);
  }

  lemma DeclaredIsHeld(tools: Tools, archive: seq<Member>, name: string) returns (m: Member)
    requires WheelHashes(tools, archive).Ok? && name in WheelHashes(tools, archive).value
    ensures m in archive && m.name == name && !IsDirectory(name)
    ensures tools.sha(m.data) == WheelHashes(tools, archive).value[name]
  {
    var rows := AcceptedRows(tools, archive);
    m := HeldMember(tools, FilesOf(archive), WheelHashes(tools, archive).value, UnhashedNames(rows), name);
  }

  lemma HeldMember(tools: Tools, members: seq<Member>, h: Hashes, unhashed: seq<string>, name: string)
    returns (m: Member)
    requires ArchiveFault(tools, members, h, unhashed).None? && name in h
    ensures m in members && m.name == name && tools.sha(m.data) == h[name]
  {
    assert Holds(members, name) && Matches(tools, members, name, h[name]);
    m :| m in members && m.name == name;
  }

  // ---------------------------------------------------------------- the same, as it is computed

  method ReadRows(lines: seq<seq<string>>) returns (r: Result<seq<Row>, Refusal>)
    ensures r == RecordRows(lines)
  {
    var rows := [];
    for i := 0 to |lines|
      invariant RecordRows(lines[..i]) == Ok(rows)
    {
      assert lines[..i + 1][..i] == lines[..i];
      if !BlankLine(lines[i]) {
        if |lines[i]| != 3 {
          RowsStop(lines, i + 1);
          return Err(RowFields);
        }
        rows := rows + [Row(lines[i][0], lines[i][1], lines[i][2])];
      }
    }
    assert lines[..|lines|] == lines;
    r := Ok(rows);
  }

  lemma {:induction false} RowsStop(lines: seq<seq<string>>, i: nat)
    requires i <= |lines| && RecordRows(lines[..i]).Err?
    ensures RecordRows(lines) == RecordRows(lines[..i])
    decreases |lines| - i
  {
    if i == |lines| {
      assert lines[..i] == lines;
    } else {
      assert lines[..i + 1][..i] == lines[..i];
      RowsStop(lines, i + 1);
    }
  }

  lemma {:induction false} HashesStop(rows: seq<Row>, i: nat)
    requires i <= |rows| && DeclaredHashes(rows[..i]).Err?
    ensures DeclaredHashes(rows) == DeclaredHashes(rows[..i])
    decreases |rows| - i
  {
    if i == |rows| {
      assert rows[..i] == rows;
    } else {
      assert rows[..i + 1][..i] == rows[..i];
      HashesStop(rows, i + 1);
    }
  }

  /** Collects the hashes and the unhashed names of the rows, stopping at the first that is ill-formed. */
  method CollectHashes(rows: seq<Row>) returns (r: Result<(Hashes, seq<string>), Refusal>)
    ensures r == if DeclaredHashes(rows).Err? then Err(DeclaredHashes(rows).error)
      else Ok((DeclaredHashes(rows).value, UnhashedNames(rows)))
  {
    var hashes: Hashes := map[];
    var unhashed: seq<string> := [];
    for i := 0 to |rows|
      invariant DeclaredHashes(rows[..i]) == Ok(hashes) && UnhashedNames(rows[..i]) == unhashed
    {
      assert rows[..i + 1][..i] == rows[..i];
      if rows[i].hash == [] {
        unhashed := unhashed + [rows[i].name];
        continue;
      }
      var added := AddHash(hashes, rows[i]);
      if added.Err? {
        HashesStop(rows, i + 1);
        return Err(added.error);
      }
      hashes := added.value;
    }
    assert rows[..|rows|] == rows;
    r := Ok((hashes, unhashed));
  }

  method CheckDistinct(members: seq<Member>) returns (ok: bool)
    ensures ok == DistinctNames(members)
  {
    var seen: set<string> := {};
    for i := 0 to |members|
      invariant forall j :: 0 <= j < i ==> members[j].name in seen
      invariant forall n :: n in seen ==> exists j :: 0 <= j < i && members[j].name == n
      invariant DistinctNames(members[..i])
    {
      if members[i].name in seen { return false; }
      seen := seen + {members[i].name};
    }
    assert members[..|members|] == members;
    ok := true;
  }

  /** Recomputes every claim of the hashes from the member it names. */
  method CheckClaims(tools: Tools, members: seq<Member>, h: Hashes) returns (ok: bool)
    requires DistinctNames(members)
    ensures ok == forall n :: n in h ==> Holds(members, n) && Matches(tools, members, n, h[n])
  {
    var todo := h.Keys;
    while todo != {}
      invariant todo <= h.Keys
      invariant forall n :: n in h && n !in todo ==> Holds(members, n) && Matches(tools, members, n, h[n])
      decreases |todo|
    {
      var n :| n in todo;
      var m := Find(members, n);
      if m.None? || tools.sha(m.value.data) != h[n] { return false; }
      todo := todo - {n};
    }
    ok := true;
  }

  method Find(members: seq<Member>, name: string) returns (m: Option<Member>)
    requires DistinctNames(members)
    ensures m.None? <==> !Holds(members, name)
    ensures m.Some? ==> m.value in members && m.value.name == name
    ensures m.Some? ==> forall x :: x in members && x.name == name ==> x == m.value
  {
    for i := 0 to |members|
      invariant forall j :: 0 <= j < i ==> members[j].name != name
    {
      if members[i].name == name { return Some(members[i]); }
    }
    m := None;
  }

  /** Parses the wheel's RECORD and checks every claim in it. */
  method WheelRecordHashes(tools: Tools, archive: seq<Member>) returns (r: Result<Hashes, Refusal>)
    ensures r == WheelHashes(tools, archive)
  {
    var records := RecordMembers(archive);
    if |records| != 1 { return Err(NotOneRecord); }
    var lines := tools.csv(records[0].data);
    if lines.None? { return Err(RecordUnreadable); }
    var rows := ReadRows(lines.value);
    if rows.Err? { return Err(rows.error); }
    var collected := CollectHashes(rows.value);
    if collected.Err? { return Err(collected.error); }
    var (h, unhashed) := collected.value;
    var fault := RowsFault(h, unhashed);
    if fault.Some? { return Err(fault.value); }
    var flaw := CheckArchive(tools, FilesOf(archive), h, unhashed);
    r := if flaw.Some? then Err(flaw.value) else Ok(h);
  }

  method CheckArchive(tools: Tools, members: seq<Member>, h: Hashes, unhashed: seq<string>)
    returns (flaw: Option<Refusal>)
    ensures flaw == ArchiveFault(tools, members, h, unhashed)
  {
    var distinct := CheckDistinct(members);
    if !distinct { return Some(DuplicateMember); }
    if (exists m :: m in members && Escapes(m.name)) || (exists n :: n in h && Escapes(n)) { return Some(EscapesRoot); }
    var honest := CheckClaims(tools, members, h);
    if !honest { return Some(FalseClaim); }
    if exists m :: m in members && m.name !in h && m.name !in unhashed { return Some(Unclaimed); }
    flaw := None;
  }

  // ---------------------------------------------------------------- the installation

  datatype FileHash = FileHash(mode: string, value: string)

  /** One line of the installed RECORD. */
  datatype Installed = Installed(name: string, hash: Option<FileHash>)

  /** An installation: the lines of its RECORD, its files, and the comparison of bytecode with recompiled source. */
  datatype Installation = Installation(
    rows: seq<Installed>, files: map<string, Bytes>, bytecodeMatches: (string, string) -> Option<bool>)

  predicate IsHashed(rows: seq<Installed>, name: string) {
    exists r :: r in rows && r.name == name && r.hash.Some?
  }

  predicate UnhashedIsFine(inst: Installation, name: string) {
    if IsInstallerBytecode(name) then
      var source := BytecodeSourcePath(name);
      source.Some? && IsHashed(inst.rows, source.value) && inst.bytecodeMatches(name, source.value) == Some(true)
    else
      (IsRecordName(name) || StartsWith(name, "mixle-") || StartsWith(name, "mixle."))
      && (Contains(name, ".dist-info/")
        || !(EndsWith(name, ".py") || EndsWith(name, ".so") || EndsWith(name, ".pyd") || EndsWith(name, ".json")))
  }

  predicate HashedIsFine(tools: Tools, inst: Installation, name: string, hash: FileHash) {
    name in inst.files && hash.mode == "sha256" && B.Strip(B.Encode(tools.sha(inst.files[name]))) == hash.value
  }

  predicate RowIsFine(tools: Tools, inst: Installation, r: Installed) {
    if r.hash.Some? then HashedIsFine(tools, inst, r.name, r.hash.value) else UnhashedIsFine(inst, r.name)
  }

  /** Every line of the installed RECORD is accounted for, and some line is hashed. */
  predicate Sound(tools: Tools, inst: Installation) {
    (forall r :: r in inst.rows ==> RowIsFine(tools, inst, r)) && (exists r :: r in inst.rows && r.hash.Some?)
  }

  /** Whether files are recorded and none of them is there: a partial installation. */
  method NoneIsPresent(inst: Installation) returns (partial: bool)
    ensures partial <==>
      (exists r :: r in inst.rows && r.hash.Some?)
      && forall r :: r in inst.rows && r.hash.Some? ==> r.name !in inst.files
  {
    var recorded, absent := 0, 0;
    for i := 0 to |inst.rows|
      invariant absent <= recorded
      invariant recorded > 0 <==> exists r :: r in inst.rows[..i] && r.hash.Some?
      invariant absent == recorded <==> forall r :: r in inst.rows[..i] && r.hash.Some? ==> r.name !in inst.files
    {
      assert inst.rows[..i + 1] == inst.rows[..i] + [inst.rows[i]];
      if inst.rows[i].hash.Some? {
        recorded := recorded + 1;
        if inst.rows[i].name !in inst.files { absent := absent + 1; }
      }
    }
    assert inst.rows[..|inst.rows|] == inst.rows;
    partial := recorded > 0 && absent == recorded;
  }

  /** The identity of one installed file: its name, digest and size. */
  datatype Entry = Entry(name: string, digest: Bytes, size: nat)

  /** The entry of one line: hashed with SHA-256, its file there to be hashed. */
  function EntryOf(tools: Tools, inst: Installation, r: Installed): Option<Entry> {
    if r.hash.Some? && r.hash.value.mode == "sha256" && r.name in inst.files then
      Some(Entry(r.name, tools.sha(inst.files[r.name]), |inst.files[r.name]|))
    else None
  }

  /** The entries of the first `i` lines, in their order, whether or not the recorded digest agrees. */
  function EntriesOf(tools: Tools, inst: Installation, i: nat): (entries: seq<Entry>)
    requires i <= |inst.rows|
  {
    if i == 0 then []
    else
      var e := EntryOf(tools, inst, inst.rows[i - 1]);
      EntriesOf(tools, inst, i - 1) + if e.Some? then [e.value] else []
  }

  lemma {:induction false} NothingPresentNoEntries(tools: Tools, inst: Installation, i: nat)
    requires i <= |inst.rows| && forall r :: r in inst.rows && r.hash.Some? ==> r.name !in inst.files
    ensures EntriesOf(tools, inst, i) == []
  {
    if i > 0 {
      assert inst.rows[i - 1] in inst.rows;
      NothingPresentNoEntries(tools, inst, i - 1);
    }
  }

  predicate FineUpTo(tools: Tools, inst: Installation, i: nat)
    requires i <= |inst.rows|
  {
    forall r :: r in inst.rows[..i] ==> RowIsFine(tools, inst, r)
  }

  predicate HashedUpTo(inst: Installation, i: nat)
    requires i <= |inst.rows|
  {
    exists r :: r in inst.rows[..i] && r.hash.Some?
  }

  lemma NextRow(tools: Tools, inst: Installation, i: nat)
    requires i < |inst.rows|
    ensures FineUpTo(tools, inst, i + 1) <==> FineUpTo(tools, inst, i) && RowIsFine(tools, inst, inst.rows[i])
    ensures HashedUpTo(inst, i + 1) <==> HashedUpTo(inst, i) || inst.rows[i].hash.Some?
  {
    assert inst.rows[..i + 1] == inst.rows[..i] + [inst.rows[i]];
  }

  /** Checks one hashed line against the file it names; an entry is made wherever the file could be hashed. */
  method CheckHashed(tools: Tools, inst: Installation, r: Installed) returns (fine: bool, entry: Option<Entry>)
    requires r.hash.Some?
    ensures fine <==> HashedIsFine(tools, inst, r.name, r.hash.value)
    ensures entry == EntryOf(tools, inst, r)
  {
    if r.name !in inst.files || r.hash.value.mode != "sha256" { return false, None; }
    var digest := tools.sha(inst.files[r.name]);
    var expected := B.Strip(B.Encode(digest));
    return expected == r.hash.value.value, Some(Entry(r.name, digest, |inst.files[r.name]|));
  }

  /** Checks one line, hashed or not. */
  method CheckRow(tools: Tools, inst: Installation, r: Installed) returns (fine: bool, entry: Option<Entry>)
    ensures fine <==> RowIsFine(tools, inst, r)
    ensures entry == EntryOf(tools, inst, r)
  {
    if r.hash.None? { return UnhashedIsFine(inst, r.name), None; }
    fine, entry := CheckHashed(tools, inst, r);
  }

  /** Where every line is fine, there is an entry exactly when some line is hashed. */
  lemma {:induction false} FineHasEntries(tools: Tools, inst: Installation, i: nat)
    requires i <= |inst.rows| && FineUpTo(tools, inst, i)
    ensures EntriesOf(tools, inst, i) != [] <==> HashedUpTo(inst, i)
  {
    if i > 0 {
      NextRow(tools, inst, i - 1);
      FineHasEntries(tools, inst, i - 1);
    }
  }

  /** Checks every line of the installed RECORD against the file it names. */
  method InstalledContent(tools: Tools, inst: Installation) returns (verified: bool, entries: seq<Entry>)
    ensures verified <==> Sound(tools, inst)
    ensures entries == EntriesOf(tools, inst, |inst.rows|)
  {
    entries := [];
    var partial := NoneIsPresent(inst);
    if partial {
      NothingPresentNoEntries(tools, inst, |inst.rows|);
      return false, [];
    }
    var failures: seq<string> := [];
    for i := 0 to |inst.rows|
      invariant entries == EntriesOf(tools, inst, i)
      invariant failures == [] <==> FineUpTo(tools, inst, i)
    {
      NextRow(tools, inst, i);
      var fine, entry := CheckRow(tools, inst, inst.rows[i]);
      if !fine { failures := failures + [inst.rows[i].name]; }
      if entry.Some? { entries := entries + [entry.value]; }
    }
    verified := entries != [] && failures == [];
    SoundIff(tools, inst, verified, failures == []);
  }

  lemma SoundIff(tools: Tools, inst: Installation, verified: bool, fine: bool)
    requires fine <==> FineUpTo(tools, inst, |inst.rows|)
    requires verified <==> EntriesOf(tools, inst, |inst.rows|) != [] && fine
    ensures verified <==> Sound(tools, inst)
  {
    assert inst.rows[..|inst.rows|] == inst.rows;
    if fine { FineHasEntries(tools, inst, |inst.rows|); }
  }

  // ---------------------------------------------------------------- binding the wheel to the installation

  /** The digests that the installed RECORD declares; the last line of a name counts. None when one cannot be
      decoded. */
  function InstalledHashes(rows: seq<Installed>): Option<Hashes> {
    if rows == [] then Some(map[])
    else
      var before, item := InstalledHashes(rows[..|rows| - 1]), rows[|rows| - 1];
      if before.None? || item.hash.None? || item.hash.value.mode != "sha256" then before
      else
        var digest := B.Decode(B.Repad(item.hash.value.value));
        if digest.None? then None else Some(before.value[item.name := digest.value])
  }

  /** In a sound installation the declared digests are exactly those of the files, for every hashed name. */
  lemma {:induction false} SoundHashesAreTheFiles(tools: Tools, inst: Installation, i: nat)
    requires i <= |inst.rows| && FineUpTo(tools, inst, i)
    ensures InstalledHashes(inst.rows[..i]).Some?
    ensures forall n :: n in InstalledHashes(inst.rows[..i]).value <==> IsHashed(inst.rows[..i], n)
    ensures forall n :: n in InstalledHashes(inst.rows[..i]).value ==>
      n in inst.files && InstalledHashes(inst.rows[..i]).value[n] == tools.sha(inst.files[n])
  {
    if i > 0 {
      var item := inst.rows[i - 1];
      assert inst.rows[..i][..i - 1] == inst.rows[..i - 1];
      NextRow(tools, inst, i - 1);
      SoundHashesAreTheFiles(tools, inst, i - 1);
      OneMoreName(inst.rows, i - 1);
      if item.hash.Some? { B.DecodeUndoesEncode(tools.sha(inst.files[item.name])); }
    }
  }

  lemma OneMoreName(rows: seq<Installed>, i: nat)
    requires i < |rows|
    ensures forall n :: IsHashed(rows[..i + 1], n) <==>
      IsHashed(rows[..i], n) || (rows[i].hash.Some? && rows[i].name == n)
  {
    forall n
      ensures IsHashed(rows[..i + 1], n) <==> IsHashed(rows[..i], n) || (rows[i].hash.Some? && rows[i].name == n)
    {
      OneMoreRow(rows, i, n);
    }
  }

  lemma OneMoreRow(rows: seq<Installed>, i: nat, n: string)
    requires i < |rows|
    ensures IsHashed(rows[..i + 1], n) <==> IsHashed(rows[..i], n) || (rows[i].hash.Some? && rows[i].name == n)
  {
    assert rows[..i + 1] == rows[..i] + [rows[i]];
    if IsHashed(rows[..i], n) {
      var r :| r in rows[..i] && r.name == n && r.hash.Some?;
      assert r in rows[..i + 1];
    }
    if rows[i].hash.Some? && rows[i].name == n { assert rows[i] in rows[..i + 1]; }
  }

  /** Which code is running, and the provenance found beside it. */
  datatype Running = Running(
    distributionRoot: Option<string>, packageRoots: seq<string>, moduleInside: bool,
    provenance: Option<map<string, string>>)

  function Field(provenance: map<string, string>, key: string): Option<string> {
    if key in provenance then Some(provenance[key]) else None
  }

  predicate SameProvenance(a: map<string, string>, b: map<string, string>) {
    forall key :: key in {"source_commit", "source_tree", "source_content_sha256"} ==> Field(a, key) == Field(b, key)
  }

  predicate RunsInstalled(run: Running, build: map<string, string>) {
    run.distributionRoot.Some? && run.packageRoots == [run.distributionRoot.value] && run.moduleInside
    && run.provenance.Some? && SameProvenance(run.provenance.value, build)
  }

  predicate SameHashes(wheel: Hashes, installed: Hashes) {
    forall n :: n in wheel ==> n in installed && installed[n] == wheel[n]
  }

  /** What a verified binding means. */
  predicate Bound(tools: Tools, archive: seq<Member>, build: map<string, string>, run: Running, inst: Installation) {
    RunsInstalled(run, build) && WheelHashes(tools, archive).Ok? && InstalledHashes(inst.rows).Some?
    && SameHashes(WheelHashes(tools, archive).value, InstalledHashes(inst.rows).value)
  }

  /** The binding raises when it gets as far as the installed digests and one of them cannot be decoded. */
  predicate BindingRaises(tools: Tools, archive: seq<Member>, run: Running, inst: Installation) {
    run.distributionRoot.Some? && run.provenance.Some? && WheelHashes(tools, archive).Ok?
    && InstalledHashes(inst.rows).None?
  }

  /** Counts the wheel's entries that the installation lacks or differs in, stopping after ten mismatches in all. */
  method CompareHashes(wheel: Hashes, installed: Hashes, earlier: nat) returns (mismatches: nat)
    ensures mismatches == 0 <==> earlier == 0 && SameHashes(wheel, installed)
    ensures mismatches <= earlier + 11
  {
    mismatches := earlier;
    var todo := wheel.Keys;
    while todo != {}
      invariant todo <= wheel.Keys && earlier <= mismatches <= earlier + 9
      invariant mismatches == 0 <==>
        (earlier == 0 && forall n :: n in wheel && n !in todo ==> n in installed && installed[n] == wheel[n])
      invariant mismatches == earlier || mismatches < 10
      decreases |todo|
    {
      var name :| name in todo;
      todo := todo - {name};
      if name !in installed || installed[name] != wheel[name] {
        mismatches := mismatches + 1;
        if mismatches >= 10 {
          mismatches := mismatches + 1;
          return;
        }
      }
    }
  }

  /** Binds a wheel to the distribution that is running. It raises when an installed digest cannot be decoded. */
  method SubjectBinding(tools: Tools, archive: seq<Member>, build: map<string, string>, run: Running,
                        inst: Installation)
    returns (verified: Option<bool>)
    ensures verified == Some(true) <==> Bound(tools, archive, build, run, inst)
    ensures verified.None? <==> BindingRaises(tools, archive, run, inst)
  {
    if run.distributionRoot.None? { return Some(false); }
    var mismatches := CheckRoots(run);
    if run.provenance.None? { return Some(false); }
    if !SameProvenance(run.provenance.value, build) { mismatches := mismatches + 1; }
    var wheel := WheelRecordHashes(tools, archive);
    if wheel.Err? { return Some(false); }
    var installed := ReadInstalled(inst.rows);
    if installed.None? { return None; }
    mismatches := CompareHashes(wheel.value, installed.value, mismatches);
    return Some(mismatches == 0);
  }

  method CheckRoots(run: Running) returns (mismatches: nat)
    requires run.distributionRoot.Some?
    ensures mismatches == 0 <==> run.packageRoots == [run.distributionRoot.value] && run.moduleInside
  {
    mismatches := if |run.packageRoots| != 1 then 1 else 0;
    for i := 0 to |run.packageRoots|
      invariant mismatches == 0 <==>
        |run.packageRoots| == 1 && forall j :: 0 <= j < i ==> run.packageRoots[j] == run.distributionRoot.value
    {
      if run.packageRoots[i] != run.distributionRoot.value { mismatches := mismatches + 1; }
    }
    if !run.moduleInside { mismatches := mismatches + 1; }
  }

  method ReadInstalled(rows: seq<Installed>) returns (r: Option<Hashes>)
    ensures r == InstalledHashes(rows)
  {
    var hashes: Hashes := map[];
    for i := 0 to |rows|
      invariant InstalledHashes(rows[..i]) == Some(hashes)
    {
      assert rows[..i + 1][..i] == rows[..i];
      if rows[i].hash.Some? && rows[i].hash.value.mode == "sha256" {
        var digest := B.Decode(B.Repad(rows[i].hash.value.value));
        if digest.None? {
          InstalledStop(rows, i + 1);
          return None;
        }
        hashes := hashes[rows[i].name := digest.value];
      }
    }
    assert rows[..|rows|] == rows;
    r := Some(hashes);
  }

  lemma {:induction false} InstalledStop(rows: seq<Installed>, i: nat)
    requires i <= |rows| && InstalledHashes(rows[..i]).None?
    ensures InstalledHashes(rows).None?
    decreases |rows| - i
  {
    if i == |rows| {
      assert rows[..i] == rows;
    } else {
      assert rows[..i + 1][..i] == rows[..i];
      InstalledStop(rows, i + 1);
    }
  }

  // ---------------------------------------------------------------- the receipt

  /** A wheel as presented: its archive, the provenance it records, and whether it could be identified at all. */
  datatype Wheel = Wheel(archive: seq<Member>, build: map<string, string>, identified: bool)

  datatype ReceiptError = MutuallyExclusive | NotIdentified | InstalledHashUndecodable

  /** What a passing release receipt rests on. */
  predicate Passes(tools: Tools, wheel: Wheel, run: Running, inst: Installation, claims: seq<bool>) {
    wheel.identified && Bound(tools, wheel.archive, wheel.build, run, inst) && Sound(tools, inst)
    && AllHold(claims)
  }

  predicate AllHold(claims: seq<bool>) {
    forall i :: 0 <= i < |claims| ==> claims[i]
  }

  /** The verdict of a receipt for a wheel, for a source tree of known or unknown commit, or for nothing. */
  method BuildReceipt(
    tools: Tools, wheel: Option<Wheel>, allowSourceTree: bool, commitKnown: bool, run: Running, inst: Installation,
    claims: seq<bool>)
    returns (r: Result<bool, ReceiptError>)
    ensures wheel.Some? && allowSourceTree ==> r == Err(MutuallyExclusive)
    ensures wheel.Some? && !allowSourceTree ==>
              if !wheel.value.identified then r == Err(NotIdentified)
              else if BindingRaises(tools, wheel.value.archive, run, inst) then r == Err(InstalledHashUndecodable)
              else r == Ok(Passes(tools, wheel.value, run, inst, claims))
    ensures wheel.None? && allowSourceTree ==> r == Ok(
              commitKnown && run.distributionRoot.Some? && Sound(tools, inst) && AllHold(claims))
    ensures wheel.None? && !allowSourceTree ==> r == Ok(false)
  {
    if wheel.Some? && allowSourceTree { return Err(MutuallyExclusive); }
    var verified := commitKnown && allowSourceTree;
    if wheel.Some? {
      if !wheel.value.identified { return Err(NotIdentified); }
      var hashes := WheelRecordHashes(tools, wheel.value.archive);
      var bound := SubjectBinding(tools, wheel.value.archive, wheel.value.build, run, inst);
      if bound.None? { return Err(InstalledHashUndecodable); }
      verified := hashes.Ok? && bound.value;
    }
    var sound, _ := InstalledContent(tools, inst);
    r := Ok(verified && run.distributionRoot.Some? && sound && AllHold(claims));
  }

  /** A file of the archive is installed under its name, with the same hash. */
  predicate InstalledAs(tools: Tools, inst: Installation, m: Member) {
    m.name in inst.files && tools.sha(inst.files[m.name]) == tools.sha(m.data)
  }

  lemma SoundHashes(tools: Tools, inst: Installation)
    requires Sound(tools, inst)
    ensures InstalledHashes(inst.rows).Some?
    ensures forall n :: n in InstalledHashes(inst.rows).value <==> IsHashed(inst.rows, n)
    ensures forall n :: n in InstalledHashes(inst.rows).value ==>
      n in inst.files && InstalledHashes(inst.rows).value[n] == tools.sha(inst.files[n])
  {
    assert inst.rows[..|inst.rows|] == inst.rows;
    SoundHashesAreTheFiles(tools, inst, |inst.rows|);
  }

  /** For an accepted wheel and a sound installation, the two RECORDs agree exactly when every file whose hash the wheel
      declares is installed, hashed, and has the hash of the archive's own member. */
  lemma RecordsAgreeIffFilesDo(tools: Tools, archive: seq<Member>, inst: Installation)
    requires WheelHashes(tools, archive).Ok? && Sound(tools, inst)
    ensures InstalledHashes(inst.rows).Some?
    ensures SameHashes(WheelHashes(tools, archive).value, InstalledHashes(inst.rows).value) <==>
      forall m :: m in archive && m.name in WheelHashes(tools, archive).value && !IsDirectory(m.name) ==>
        IsHashed(inst.rows, m.name) && InstalledAs(tools, inst, m)
  {
    var wheel := WheelHashes(tools, archive).value;
    SoundHashes(tools, inst);
    var installed := InstalledHashes(inst.rows).value;
    forall m | m in archive && m.name in wheel && !IsDirectory(m.name) ensures wheel[m.name] == tools.sha(m.data) {
      AcceptedWheelIsCovered(tools, archive, m);
    }
    forall n | n in wheel
      ensures exists m :: m in archive && m.name == n && !IsDirectory(n) && tools.sha(m.data) == wheel[n]
    {
      var m := DeclaredIsHeld(tools, archive, n);
    }
  }

  /** A passing receipt means that every file of the wheel but its RECORD is installed, with the wheel's own bytes
      unless the two collide under the hash. */
  lemma PassingReceiptMeansInstalled(
    tools: Tools, wheel: Wheel, run: Running, inst: Installation, claims: seq<bool>, m: Member)
    requires Passes(tools, wheel, run, inst, claims)
    requires m in wheel.archive && !IsDirectory(m.name) && RecordMembers(wheel.archive) != [m]
    requires m.name in inst.files && tools.sha(inst.files[m.name]) == tools.sha(m.data) ==> inst.files[m.name] == m.data
    ensures m.name in inst.files && inst.files[m.name] == m.data
  {
    AcceptedWheelIsCovered(tools, wheel.archive, m);
    RecordsAgreeIffFilesDo(tools, wheel.archive, inst);
    assert InstalledAs(tools, inst, m);
  }
}
