/**
 * Which wheels are accepted, exactly, and that a sound release passes: a wheel whose RECORD declares what it holds,
 * installed as it is, gets a passing receipt.
 */
module SoundRelease {
  import opened Outcomes
  import opened ByteStrings
  import opened Receipt
  import B = Base64Url

  // ---------------------------------------------------------------- names

  /** A name is split at its separators and nowhere else. */
  lemma {:induction false} JoinSplit(s: string, sep: char)
    ensures Join(Split(s, sep), sep) == s && forall p :: p in Split(s, sep) ==> sep !in p
  {
    if s != [] {
      var rest := Split(s[1..], sep);
      JoinSplit(s[1..], sep);
      if s[0] == sep {
        assert Split(s, sep)[1..] == rest;
        assert Join(Split(s, sep), sep) == [sep] + s[1..];
      } else {
        HeadJoined(s[0], rest, sep);
        assert rest[0] in rest;
        assert forall p :: p in rest[1..] ==> p in rest;
      }
    }
  }

  lemma HeadJoined(c: char, parts: seq<string>, sep: char)
    requires |parts| >= 1
    ensures Join([[c] + parts[0]] + parts[1..], sep) == [c] + Join(parts, sep)
  {
    if |parts| > 1 {
      assert ([[c] + parts[0]] + parts[1..])[1..] == parts[1..];
      assert [c] + (parts[0] + [sep] + Join(parts[1..], sep)) == ([c] + parts[0]) + [sep] + Join(parts[1..], sep);
    }
  }

  /** A name stays inside the archive root: it is relative, names no drive, and never steps up. */
  ghost predicate StaysInside(name: string) {
    && (name != "" ==> name[0] != '/' && name[0] != '\\')
    && (|name| > 1 ==> name[1] != ':')
    && forall parts: seq<string> ::
         |parts| >= 1 && (forall p :: p in parts ==> '/' !in p) && name == Join(parts, '/') ==> ".." !in parts
  }

  lemma EscapesIff(name: string)
    ensures Escapes(name) <==> !StaysInside(name)
  {
    JoinSplit(name, '/');
    assert StartsWith(name, "/") <==> name != "" && name[0] == '/';
    assert StartsWith(name, "\\") <==> name != "" && name[0] == '\\';
    forall parts: seq<string> | |parts| >= 1 && (forall p :: p in parts ==> '/' !in p) && name == Join(parts, '/')
      ensures parts == Split(name, '/')
    {
      SplitJoin(parts, '/');
    }
  }

  // ---------------------------------------------------------------- the hash of a row

  lemma {:induction false} PartitionAt(before: string, after: string)
    requires '=' !in before
    ensures Partition(before + "=" + after) == (before, after)
  {
    var s := before + "=" + after;
    if before == [] {
      assert s[1..] == after;
    } else {
      assert s[1..] == before[1..] + "=" + after;
      assert s[0] == before[0] && before[0] in before;
      assert [before[0]] + before[1..] == before;
      PartitionAt(before[1..], after);
    }
  }

  lemma {:induction false} PartitionParts(s: string)
    ensures var (before, after) := Partition(s);
      (after == [] && before == s) || s == before + "=" + after
  {
    if s != [] && s[0] != '=' { PartitionParts(s[1..]); }
  }

  /** What a row's hash field declares: the 32 bytes of a SHA-256 digest, spelled after "sha256=". */
  ghost predicate Declares(row: Row, digest: Bytes) {
    |digest| == 32 && exists value :: Spells(row.hash, value, digest)
  }

  predicate Spells(hash: string, value: string, digest: Bytes) {
    hash == "sha256=" + value && value != "" && B.Decode(B.Repad(value)) == Some(digest)
  }

  lemma AddHashIff(h: Hashes, row: Row)
    ensures AddHash(h, row).Ok? <==> row.name !in h && exists digest :: Declares(row, digest)
    ensures forall digest :: Declares(row, digest) && row.name !in h ==> AddHash(h, row) == Ok(h[row.name := digest])
  {
    var (algorithm, value) := Partition(row.hash);
    PartitionParts(row.hash);
    forall v | row.hash == "sha256=" + v ensures algorithm == "sha256" && value == v {
      assert "sha256" + "=" + v == "sha256=" + v;
      PartitionAt("sha256", v);
    }
    if AddHash(h, row).Ok? {
      assert Spells(row.hash, value, B.Decode(B.Repad(value)).value);
      assert Declares(row, B.Decode(B.Repad(value)).value);
    }
  }

  // ---------------------------------------------------------------- the rows of a RECORD

  predicate Hashed(rows: seq<Row>, name: string) {
    exists r :: r in rows && r.hash != "" && r.name == name
  }

  predicate HashedApart(rows: seq<Row>) {
    forall i, j :: 0 <= i < j < |rows| && rows[i].hash != "" && rows[j].hash != "" ==> rows[i].name != rows[j].name
  }

  /** `h` holds, under each hashed name, the digest that its one row declares, and nothing else. */
  ghost predicate DeclaredBy(rows: seq<Row>, h: Hashes) {
    && HashedApart(rows)
    && Digests(rows, h)
    && (forall n :: n in h ==> Hashed(rows, n))
  }

  lemma HashedOnceMore(rows: seq<Row>, row: Row, n: string)
    ensures Hashed(rows + [row], n) <==> Hashed(rows, n) || (row.hash != "" && row.name == n)
  {
    if Hashed(rows, n) {
      var r :| r in rows && r.hash != "" && r.name == n;
      assert r in rows + [row];
    }
    if row.hash != "" && row.name == n { assert row in rows + [row]; }
  }

  lemma ApartOnceMore(rows: seq<Row>, row: Row)
    ensures HashedApart(rows + [row]) <==> HashedApart(rows) && (row.hash != "" ==> !Hashed(rows, row.name))
  {
    var all := rows + [row];
    if HashedApart(all) {
      forall i, j | 0 <= i < j < |rows| && rows[i].hash != "" && rows[j].hash != ""
        ensures rows[i].name != rows[j].name
      {
        assert all[i] == rows[i] && all[j] == rows[j];
      }
      forall r | r in rows && r.hash != "" && row.hash != "" ensures r.name != row.name {
        var i :| 0 <= i < |rows| && rows[i] == r;
        assert all[i] == r && all[|rows|] == row;
      }
    }
  }

  lemma UnhashedAdds(rows: seq<Row>, row: Row, h: Hashes)
    requires row.hash == ""
    ensures DeclaredBy(rows + [row], h) <==> DeclaredBy(rows, h)
  {
    ApartOnceMore(rows, row);
    forall n ensures Hashed(rows + [row], n) <==> Hashed(rows, n) { HashedOnceMore(rows, row, n); }
  }

  lemma HashedAdds(rows: seq<Row>, row: Row, h: Hashes)
    requires row.hash != ""
    ensures DeclaredBy(rows + [row], h) <==>
      row.name in h && Declares(row, h[row.name]) && !Hashed(rows, row.name) && DeclaredBy(rows, h - {row.name})
  {
    ApartOnceMore(rows, row);
    forall n ensures Hashed(rows + [row], n) <==> Hashed(rows, n) || row.name == n { HashedOnceMore(rows, row, n); }
    DigestsOnceMore(rows, row, h);
    assert forall r :: r in rows && r.hash != "" ==> Hashed(rows, r.name);
  }

  ghost predicate Digests(rows: seq<Row>, h: Hashes) {
    forall r :: r in rows && r.hash != "" ==> r.name in h && Declares(r, h[r.name])
  }

  lemma DigestsOnceMore(rows: seq<Row>, row: Row, h: Hashes)
    requires row.hash != ""
    ensures Digests(rows + [row], h) <==> row.name in h && Declares(row, h[row.name]) && Digests(rows, h)
    ensures !Hashed(rows, row.name) ==> (Digests(rows, h) <==> Digests(rows, h - {row.name}))
  {
    assert row in rows + [row];
    assert forall r :: r in rows ==> r in rows + [row];
    assert forall r :: r in rows && r.hash != "" ==> Hashed(rows, r.name);
  }

  /** The declared hashes are read off the rows, in whatever order they stand. */
  lemma {:induction false} DeclaredIff(rows: seq<Row>, h: Hashes)
    ensures DeclaredHashes(rows) == Ok(h) <==> DeclaredBy(rows, h)
    decreases |rows|
  {
    if rows == [] {
      if DeclaredBy(rows, h) { assert forall n :: n in h ==> Hashed([], n); }
    } else {
      var k := |rows| - 1;
      var row := rows[k];
      assert rows == rows[..k] + [row];
      if row.hash == "" {
        DeclaredIff(rows[..k], h);
        UnhashedAdds(rows[..k], row, h);
      } else {
        DeclaredIff(rows[..k], h - {row.name});
        HashedAdds(rows[..k], row, h);
        if DeclaredHashes(rows[..k]).Ok? {
          DeclaredIff(rows[..k], DeclaredHashes(rows[..k]).value);
          OneHashAdded(rows[..k], row, h, DeclaredHashes(rows[..k]).value);
        }
      }
    }
  }

  lemma OneHashAdded(rows: seq<Row>, row: Row, h: Hashes, before: Hashes)
    requires DeclaredBy(rows, before) && row.hash != ""
    ensures AddHash(before, row) == Ok(h) <==>
      row.name in h && Declares(row, h[row.name]) && !Hashed(rows, row.name) && before == h - {row.name}
  {
    AddHashIff(before, row);
    assert row.name in before <==> Hashed(rows, row.name);
    if AddHash(before, row) == Ok(h) {
      var digest :| Declares(row, digest);
      assert h == before[row.name := digest];
    } else if row.name in h && before == h - {row.name} {
      assert before[row.name := h[row.name]] == h;
    }
  }

  // ---------------------------------------------------------------- the row that the RECORD has for itself

  ghost predicate NamesRecord(name: string) {
    exists stem :: name == stem + ".dist-info/RECORD"
  }

  /** Row `i` is the only one without a hash, and it names a RECORD. */
  ghost predicate OwnRow(rows: seq<Row>, i: int) {
    && 0 <= i < |rows| && rows[i].hash == "" && NamesRecord(rows[i].name)
    && forall j :: 0 <= j < |rows| && rows[j].hash == "" ==> j == i
  }

  lemma RecordNameIff(name: string)
    ensures IsRecordName(name) <==> NamesRecord(name)
  {
    if IsRecordName(name) { assert name == name[..|name| - |".dist-info/RECORD"|] + ".dist-info/RECORD"; }
  }

  lemma {:induction false} NoneUnhashed(rows: seq<Row>)
    ensures UnhashedNames(rows) == [] <==> forall r :: r in rows ==> r.hash != ""
    decreases |rows|
  {
    if rows != [] {
      NoneUnhashed(rows[..|rows| - 1]);
      assert rows == rows[..|rows| - 1] + [rows[|rows| - 1]];
    }
  }

  predicate OnlyUnhashed(rows: seq<Row>, i: int) {
    0 <= i < |rows| && rows[i].hash == "" && forall j :: 0 <= j < |rows| && rows[j].hash == "" ==> j == i
  }

  lemma {:induction false} OneUnhashed(rows: seq<Row>)
    ensures |UnhashedNames(rows)| == 1 <==> exists i :: OnlyUnhashed(rows, i)
    ensures forall i :: OnlyUnhashed(rows, i) ==> UnhashedNames(rows) == [rows[i].name]
    decreases |rows|
  {
    if rows != [] {
      var k := |rows| - 1;
      OneUnhashed(rows[..k]);
      NoneUnhashed(rows[..k]);
      if rows[k].hash == "" {
        if UnhashedNames(rows[..k]) == [] { assert OnlyUnhashed(rows, k); }
        assert forall j :: 0 <= j < k ==> rows[..k][j] == rows[j];
      } else {
        forall i ensures OnlyUnhashed(rows, i) <==> OnlyUnhashed(rows[..k], i) {
          assert forall j :: 0 <= j < k ==> rows[..k][j] == rows[j];
        }
      }
    }
  }

  lemma {:induction false} UnhashedNamesAre(rows: seq<Row>, n: string)
    ensures n in UnhashedNames(rows) <==> exists r :: r in rows && r.hash == "" && r.name == n
    decreases |rows|
  {
    if rows != [] {
      UnhashedNamesAre(rows[..|rows| - 1], n);
      assert rows == rows[..|rows| - 1] + [rows[|rows| - 1]];
    }
  }

  lemma RowsFaultIff(rows: seq<Row>, h: Hashes)
    ensures RowsFault(h, UnhashedNames(rows)).None? <==> h != map[] && exists i :: OwnRow(rows, i)
  {
    OneUnhashed(rows);
    forall i ensures OwnRow(rows, i) <==> OnlyUnhashed(rows, i) && IsRecordName(rows[i].name) {
      if 0 <= i < |rows| { RecordNameIff(rows[i].name); }
    }
  }

  // ---------------------------------------------------------------- which wheels are accepted

  /** An archive member that is a file: its name ends in no slash. */
  predicate IsFile(m: Member) {
    m.name == "" || m.name[|m.name| - 1] != '/'
  }

  lemma FileIff(m: Member)
    ensures IsFile(m) <==> !IsDirectory(m.name)
  {
    if m.name != "" { assert m.name[|m.name| - 1..] == [m.name[|m.name| - 1]]; }
  }

  predicate FilesApart(archive: seq<Member>) {
    forall i, j :: 0 <= i < j < |archive| && IsFile(archive[i]) && IsFile(archive[j]) ==>
      archive[i].name != archive[j].name
  }

  lemma {:induction false} FilesApartIff(archive: seq<Member>)
    ensures DistinctNames(FilesOf(archive)) <==> FilesApart(archive)
  {
    if archive != [] {
      FilesApartIff(archive[1..]);
      FileIff(archive[0]);
      FirstApart(archive);
      if IsFile(archive[0]) { FirstDistinct(archive[0], FilesOf(archive[1..])); }
    }
  }

  lemma FirstApart(archive: seq<Member>)
    requires archive != []
    ensures FilesApart(archive) <==>
      FilesApart(archive[1..])
      && (IsFile(archive[0]) ==> forall m :: m in archive[1..] && IsFile(m) ==> m.name != archive[0].name)
  {
    var rest := archive[1..];
    if FilesApart(archive) {
      forall i, j | 0 <= i < j < |rest| && IsFile(rest[i]) && IsFile(rest[j]) ensures rest[i].name != rest[j].name {
        assert rest[i] == archive[i + 1] && rest[j] == archive[j + 1];
      }
      forall m | m in rest && IsFile(m) && IsFile(archive[0]) ensures m.name != archive[0].name {
        var j :| 0 <= j < |rest| && rest[j] == m;
        assert archive[j + 1] == m;
      }
    }
  }

  lemma FirstDistinct(first: Member, rest: seq<Member>)
    ensures DistinctNames([first] + rest) <==> DistinctNames(rest) && forall m :: m in rest ==> m.name != first.name
  {
    var all := [first] + rest;
    if DistinctNames(all) {
      forall i, j | 0 <= i < j < |rest| ensures rest[i].name != rest[j].name {
        assert rest[i] == all[i + 1] && rest[j] == all[j + 1];
      }
      forall m | m in rest ensures m.name != first.name {
        var j :| 0 <= j < |rest| && rest[j] == m;
        assert all[j + 1] == m && all[0] == first;
      }
    }
  }

  /** Some row is about the name. */
  predicate Listed(rows: seq<Row>, name: string) {
    exists r :: r in rows && r.name == name
  }

  /** Some file so named has the digest. */
  predicate HasFile(tools: Tools, archive: seq<Member>, name: string, digest: Bytes) {
    exists m :: m in archive && IsFile(m) && m.name == name && tools.sha(m.data) == digest
  }

  /** The rows say the truth about the archive, and all of it. */
  ghost predicate SaysTheTruth(tools: Tools, archive: seq<Member>, rows: seq<Row>, h: Hashes) {
    && FilesApart(archive)
    && (forall m :: m in archive && IsFile(m) ==> StaysInside(m.name) && Listed(rows, m.name))
    && (forall n :: n in h ==> HasFile(tools, archive, n, h[n]))
  }

  lemma ArchiveFaultIff(tools: Tools, archive: seq<Member>, rows: seq<Row>, h: Hashes)
    requires DeclaredBy(rows, h)
    ensures ArchiveFault(tools, FilesOf(archive), h, UnhashedNames(rows)).None? <==>
      SaysTheTruth(tools, archive, rows, h)
  {
    var files := FilesOf(archive);
    forall n ensures n in h || n in UnhashedNames(rows) <==> Listed(rows, n) { ListedIff(rows, h, n); }
    FaultlessIff(tools, files, rows, h, UnhashedNames(rows));
    FilesApartIff(archive);
    if DistinctNames(files) { TruthOfFiles(tools, archive, rows, h); }
  }

  predicate Faultless(tools: Tools, files: seq<Member>, rows: seq<Row>, h: Hashes) {
    && (forall m :: m in files ==> !Escapes(m.name) && Listed(rows, m.name))
    && (forall n :: n in h ==> Holds(files, n) && Matches(tools, files, n, h[n]))
  }

  lemma FaultlessIff(tools: Tools, files: seq<Member>, rows: seq<Row>, h: Hashes, unhashed: seq<string>)
    requires forall n :: n in h || n in unhashed <==> Listed(rows, n)
    ensures ArchiveFault(tools, files, h, unhashed).None? <==> DistinctNames(files) && Faultless(tools, files, rows, h)
  {
    if Faultless(tools, files, rows, h) {
      forall n | n in h ensures !Escapes(n) {
        var m :| m in files && m.name == n;
      }
    }
  }

  lemma TruthOfFiles(tools: Tools, archive: seq<Member>, rows: seq<Row>, h: Hashes)
    requires DistinctNames(FilesOf(archive)) && FilesApart(archive)
    ensures Faultless(tools, FilesOf(archive), rows, h) <==> SaysTheTruth(tools, archive, rows, h)
  {
    var files := FilesOf(archive);
    forall m ensures m in files <==> m in archive && IsFile(m) { FileIff(m); }
    FilesInsideIff(archive, files, rows);
    ClaimsHoldIff(tools, archive, files, h);
  }

  lemma FilesInsideIff(archive: seq<Member>, files: seq<Member>, rows: seq<Row>)
    requires forall m :: m in files <==> m in archive && IsFile(m)
    ensures (forall m :: m in files ==> !Escapes(m.name) && Listed(rows, m.name)) <==>
      forall m :: m in archive && IsFile(m) ==> StaysInside(m.name) && Listed(rows, m.name)
  {
    forall m | m in files ensures Escapes(m.name) <==> !StaysInside(m.name) { EscapesIff(m.name); }
  }

  lemma ClaimsHoldIff(tools: Tools, archive: seq<Member>, files: seq<Member>, h: Hashes)
    requires DistinctNames(files) && forall m :: m in files <==> m in archive && IsFile(m)
    ensures (forall n :: n in h ==> Holds(files, n) && Matches(tools, files, n, h[n])) <==>
      forall n :: n in h ==> HasFile(tools, archive, n, h[n])
  {
    forall n | n in h ensures HasFile(tools, archive, n, h[n]) <==> Holds(files, n) && Matches(tools, files, n, h[n]) {
      HeldIff(tools, files, n, h[n]);
      HasFileIff(tools, archive, files, n, h[n]);
    }
  }

  lemma HasFileIff(tools: Tools, archive: seq<Member>, files: seq<Member>, n: string, digest: Bytes)
    requires forall m :: m in files <==> m in archive && IsFile(m)
    ensures HasFile(tools, archive, n, digest) <==> exists m :: m in files && m.name == n && tools.sha(m.data) == digest
  {
  }

  lemma ListedIff(rows: seq<Row>, h: Hashes, n: string)
    requires DeclaredBy(rows, h)
    ensures n in h || n in UnhashedNames(rows) <==> Listed(rows, n)
  {
    UnhashedNamesAre(rows, n);
    if n in h { assert Hashed(rows, n); }
  }

  lemma HeldIff(tools: Tools, files: seq<Member>, n: string, digest: Bytes)
    requires DistinctNames(files)
    ensures (exists m :: m in files && m.name == n && tools.sha(m.data) == digest) <==>
      Holds(files, n) && Matches(tools, files, n, digest)
  {
  }

  /** Exactly which rows are accepted for an archive, and with which hashes. */
  lemma CheckedIff(tools: Tools, archive: seq<Member>, rows: seq<Row>, h: Hashes)
    ensures CheckedHashes(tools, archive, rows) == Ok(h) <==>
      DeclaredBy(rows, h) && h != map[] && (exists i :: OwnRow(rows, i)) && SaysTheTruth(tools, archive, rows, h)
  {
    DeclaredIff(rows, h);
    RowsFaultIff(rows, h);
    if DeclaredBy(rows, h) { ArchiveFaultIff(tools, archive, rows, h); }
  }

  /** The archive's only RECORD. */
  ghost predicate OnlyRecordAt(archive: seq<Member>, k: int) {
    0 <= k < |archive| && forall j :: 0 <= j < |archive| ==> (NamesRecord(archive[j].name) <==> j == k)
  }

  lemma {:induction false} NoRecord(archive: seq<Member>)
    ensures RecordMembers(archive) == [] <==> forall m :: m in archive ==> !NamesRecord(m.name)
  {
    if archive != [] {
      NoRecord(archive[1..]);
      RecordNameIff(archive[0].name);
      assert archive == [archive[0]] + archive[1..];
    }
  }

  lemma {:induction false} OneRecordIff(archive: seq<Member>)
    ensures |RecordMembers(archive)| == 1 <==> exists k :: OnlyRecordAt(archive, k)
    ensures forall k :: OnlyRecordAt(archive, k) ==> RecordMembers(archive) == [archive[k]]
  {
    if archive != [] {
      var rest := archive[1..];
      OneRecordIff(rest);
      NoRecord(rest);
      RecordNameIff(archive[0].name);
      assert forall j :: 0 <= j < |rest| ==> rest[j] == archive[j + 1];
      if NamesRecord(archive[0].name) {
        FirstRecord(archive);
      } else {
        LaterRecord(archive);
      }
    }
  }

  lemma FirstRecord(archive: seq<Member>)
    requires archive != [] && NamesRecord(archive[0].name)
    ensures (exists k :: OnlyRecordAt(archive, k)) <==> forall m :: m in archive[1..] ==> !NamesRecord(m.name)
    ensures forall k :: OnlyRecordAt(archive, k) ==> k == 0
  {
    if forall m :: m in archive[1..] ==> !NamesRecord(m.name) {
      forall j | 1 <= j < |archive| ensures !NamesRecord(archive[j].name) {
        assert archive[1..][j - 1] == archive[j];
      }
      assert OnlyRecordAt(archive, 0);
    }
  }

  lemma LaterRecord(archive: seq<Member>)
    requires archive != [] && !NamesRecord(archive[0].name)
    ensures (exists k :: OnlyRecordAt(archive, k)) <==> exists k :: OnlyRecordAt(archive[1..], k)
    ensures forall k :: OnlyRecordAt(archive, k) ==> k > 0 && OnlyRecordAt(archive[1..], k - 1)
  {
    var rest := archive[1..];
    forall k | OnlyRecordAt(archive, k) ensures k > 0 && OnlyRecordAt(rest, k - 1) {
      forall j | 0 <= j < |rest| ensures NamesRecord(rest[j].name) <==> j == k - 1 { assert rest[j] == archive[j + 1]; }
    }
    forall k | OnlyRecordAt(rest, k) ensures OnlyRecordAt(archive, k + 1) {
      forall j | 1 <= j < |archive| ensures NamesRecord(archive[j].name) <==> j == k + 1 {
        assert rest[j - 1] == archive[j];
      }
    }
  }

  // ---------------------------------------------------------------- the lines of a RECORD

  /** Every line of three fields is a row, in order. */
  lemma {:induction false} RowsInOrder(lines: seq<seq<string>>)
    requires forall l :: l in lines ==> |l| == 3
    ensures RecordRows(lines).Ok? && |RecordRows(lines).value| == |lines|
    ensures forall i :: 0 <= i < |lines| ==>
      RecordRows(lines).value[i] == Row(lines[i][0], lines[i][1], lines[i][2])
    decreases |lines|
  {
    if lines != [] {
      var before := lines[..|lines| - 1];
      assert lines == before + [lines[|lines| - 1]];
      RowsInOrder(before);
    }
  }

  /** Blank lines do not matter, wherever they stand. */
  lemma {:induction false} BlankSkipped(a: seq<seq<string>>, blank: seq<string>, b: seq<seq<string>>)
    requires BlankLine(blank)
    ensures RecordRows(a + [blank] + b) == RecordRows(a + b)
    decreases |b|
  {
    if b == [] {
      assert a + [blank] + b == a + [blank] && a + b == a;
      assert (a + [blank])[..|a|] == a;
    } else {
      var front, last := b[..|b| - 1], b[|b| - 1];
      BlankSkipped(a, blank, front);
      assert (a + [blank] + b)[..|a| + 1 + |front|] == a + [blank] + front;
      assert (a + b)[..|a| + |front|] == a + front;
    }
  }

  /** A RECORD is read exactly when each of its lines is blank or has three fields. */
  lemma {:induction false} RowsReadIff(lines: seq<seq<string>>)
    ensures RecordRows(lines).Ok? <==> forall l :: l in lines ==> BlankLine(l) || |l| == 3
    decreases |lines|
  {
    if lines != [] {
      RowsReadIff(lines[..|lines| - 1]);
      assert lines == lines[..|lines| - 1] + [lines[|lines| - 1]];
    }
  }

  predicate RowsRead(tools: Tools, data: Bytes, rows: seq<Row>) {
    tools.csv(data).Some? && RecordRows(tools.csv(data).value) == Ok(rows)
  }

  /** The rows declare `h`, have one row of their own RECORD, and say the truth. */
  ghost predicate Acceptable(tools: Tools, archive: seq<Member>, rows: seq<Row>, h: Hashes) {
    DeclaredBy(rows, h) && h != map[] && (exists i :: OwnRow(rows, i)) && SaysTheTruth(tools, archive, rows, h)
  }

  lemma AcceptedWith(tools: Tools, archive: seq<Member>, k: int, rows: seq<Row>, h: Hashes)
    requires OnlyRecordAt(archive, k) && RowsRead(tools, archive[k].data, rows)
    ensures WheelHashes(tools, archive) == Ok(h) <==> Acceptable(tools, archive, rows, h)
  {
    OneRecordIff(archive);
    assert WheelHashes(tools, archive) == CheckedHashes(tools, archive, rows);
    CheckedIff(tools, archive, rows, h);
  }

  lemma AcceptedHasRecord(tools: Tools, archive: seq<Member>) returns (k: int, rows: seq<Row>)
    requires WheelHashes(tools, archive).Ok?
    ensures OnlyRecordAt(archive, k) && RowsRead(tools, archive[k].data, rows)
  {
    OneRecordIff(archive);
    k :| OnlyRecordAt(archive, k);
    rows := RecordRows(tools.csv(archive[k].data).value).value;
  }

  /** Exactly which wheels are accepted, and with which hashes. */
  lemma AcceptedIff(tools: Tools, archive: seq<Member>, h: Hashes)
    ensures WheelHashes(tools, archive) == Ok(h) <==>
      exists k, rows :: OnlyRecordAt(archive, k) && RowsRead(tools, archive[k].data, rows)
        && Acceptable(tools, archive, rows, h)
  {
    if WheelHashes(tools, archive) == Ok(h) {
      var k, rows := AcceptedHasRecord(tools, archive);
      AcceptedWith(tools, archive, k, rows, h);
    }
    forall k, rows | OnlyRecordAt(archive, k) && RowsRead(tools, archive[k].data, rows)
      && Acceptable(tools, archive, rows, h)
      ensures WheelHashes(tools, archive) == Ok(h)
    {
      AcceptedWith(tools, archive, k, rows, h);
    }
  }

  // ---------------------------------------------------------------- a sound release

  /** A file of the wheel that its RECORD answers for. */
  ghost predicate Covered(archive: seq<Member>, m: Member) {
    m in archive && IsFile(m) && !NamesRecord(m.name)
  }

  function Spelled(tools: Tools, data: Bytes): string {
    B.Strip(B.Encode(tools.sha(data)))
  }

  /** The rows are, in whatever order, one of every covered file with its digest, and one of the RECORD with none. */
  ghost predicate TrueRows(tools: Tools, archive: seq<Member>, k: int, rows: seq<Row>) {
    && 0 <= k < |archive|
    && (forall i, j :: 0 <= i < j < |rows| ==> rows[i].name != rows[j].name)
    && (forall m :: Covered(archive, m) ==> Listed(rows, m.name))
    && Listed(rows, archive[k].name)
    && forall r :: r in rows ==> (r.hash == "" && r.name == archive[k].name) || TrueRow(tools, archive, r)
  }

  ghost predicate TrueRow(tools: Tools, archive: seq<Member>, r: Row) {
    exists m :: Covered(archive, m) && r.name == m.name && r.hash == "sha256=" + Spelled(tools, m.data)
  }

  /** The digests of the covered files, by name. */
  ghost predicate TrueDigests(tools: Tools, archive: seq<Member>, h: Hashes) {
    && (forall m :: Covered(archive, m) ==> m.name in h && h[m.name] == tools.sha(m.data))
    && (forall n :: n in h ==> exists m :: Covered(archive, m) && m.name == n)
  }

  /** An archive whose files have names of their own that stay inside it, and that holds more than its one RECORD. */
  ghost predicate WellPacked(archive: seq<Member>, k: int) {
    && OnlyRecordAt(archive, k) && FilesApart(archive)
    && (forall m :: m in archive && IsFile(m) ==> StaysInside(m.name))
    && exists m :: Covered(archive, m)
  }

  lemma SpelledDeclares(tools: Tools, data: Bytes, r: Row)
    requires |tools.sha(data)| == 32 && r.hash == "sha256=" + Spelled(tools, data)
    ensures Declares(r, tools.sha(data)) && r.hash != ""
  {
    var value := Spelled(tools, data);
    B.DecodeUndoesEncode(tools.sha(data));
    assert value != "" by { assert B.Repad("") == "" && B.Decode("") == Some([]); }
    assert Spells(r.hash, value, tools.sha(data));
  }

  lemma TrueRowsDeclare(tools: Tools, archive: seq<Member>, k: int, rows: seq<Row>, h: Hashes)
    requires (forall data :: |tools.sha(data)| == 32) && WellPacked(archive, k)
    requires TrueRows(tools, archive, k, rows) && TrueDigests(tools, archive, h)
    ensures DeclaredBy(rows, h)
  {
    forall r | r in rows && r.hash != "" ensures r.name in h && Declares(r, h[r.name]) {
      var m :| Covered(archive, m) && r.name == m.name && r.hash == "sha256=" + Spelled(tools, m.data);
      SpelledDeclares(tools, m.data, r);
    }
    forall n | n in h ensures Hashed(rows, n) {
      var m :| Covered(archive, m) && m.name == n;
      CoveredIsHashed(tools, archive, k, rows, m);
    }
  }

  lemma CoveredIsHashed(tools: Tools, archive: seq<Member>, k: int, rows: seq<Row>, m: Member)
    requires (forall data :: |tools.sha(data)| == 32) && WellPacked(archive, k)
    requires TrueRows(tools, archive, k, rows) && Covered(archive, m)
    ensures Hashed(rows, m.name)
  {
    var r :| r in rows && r.name == m.name;
    assert NamesRecord(archive[k].name);
    var x :| Covered(archive, x) && r.name == x.name && r.hash == "sha256=" + Spelled(tools, x.data);
    SpelledDeclares(tools, x.data, r);
  }

  lemma TrueRowIsHashed(tools: Tools, archive: seq<Member>, r: Row)
    ensures TrueRow(tools, archive, r) ==> r.hash != ""
  {
  }

  lemma TrueRowsOwn(tools: Tools, archive: seq<Member>, k: int, rows: seq<Row>)
    requires (forall data :: |tools.sha(data)| == 32) && WellPacked(archive, k) && TrueRows(tools, archive, k, rows)
    ensures exists i :: OwnRow(rows, i)
  {
    var r :| r in rows && r.name == archive[k].name;
    assert NamesRecord(r.name);
    var i :| 0 <= i < |rows| && rows[i] == r;
    forall j | 0 <= j < |rows| && rows[j].hash == "" ensures j == i {
      TrueRowIsHashed(tools, archive, rows[j]);
    }
    assert OwnRow(rows, i);
  }

  /** A wheel whose RECORD truly lists what it holds is accepted, with exactly its files' digests. */
  lemma TrueRecordIsAccepted(tools: Tools, archive: seq<Member>, k: int, rows: seq<Row>, h: Hashes)
    requires (forall data :: |tools.sha(data)| == 32) && WellPacked(archive, k)
    requires RowsRead(tools, archive[k].data, rows)
    requires TrueRows(tools, archive, k, rows) && TrueDigests(tools, archive, h)
    ensures WheelHashes(tools, archive) == Ok(h)
  {
    TrueRowsAcceptable(tools, archive, k, rows, h);
    AcceptedWith(tools, archive, k, rows, h);
  }

  lemma TrueRowsAcceptable(tools: Tools, archive: seq<Member>, k: int, rows: seq<Row>, h: Hashes)
    requires (forall data :: |tools.sha(data)| == 32) && WellPacked(archive, k)
    requires TrueRows(tools, archive, k, rows) && TrueDigests(tools, archive, h)
    ensures Acceptable(tools, archive, rows, h)
  {
    TrueRowsDeclare(tools, archive, k, rows, h);
    TrueRowsOwn(tools, archive, k, rows);
    TrueRowsSayIt(tools, archive, k, rows, h);
    SomethingCovered(tools, archive, k, h);
  }

  lemma SomethingCovered(tools: Tools, archive: seq<Member>, k: int, h: Hashes)
    requires WellPacked(archive, k) && TrueDigests(tools, archive, h)
    ensures h != map[]
  {
    var m :| Covered(archive, m);
    assert m.name in h;
  }

  lemma TrueRowsSayIt(tools: Tools, archive: seq<Member>, k: int, rows: seq<Row>, h: Hashes)
    requires WellPacked(archive, k) && TrueRows(tools, archive, k, rows) && TrueDigests(tools, archive, h)
    ensures SaysTheTruth(tools, archive, rows, h)
  {
    forall m | m in archive && IsFile(m) ensures Listed(rows, m.name) {
      if NamesRecord(m.name) { assert m == archive[k]; } else { assert Covered(archive, m); }
    }
    forall n | n in h ensures HasFile(tools, archive, n, h[n]) {
      var m :| Covered(archive, m) && m.name == n;
    }
  }

  // ---------------------------------------------------------------- installing it

  lemma {:induction false} Within(before: string, part: string, after: string)
    ensures Contains(before + part + after, part)
  {
    var s := before + part + after;
    if before == [] {
      assert s == part + after;
    } else {
      assert s[1..] == before[1..] + part + after;
      Within(before[1..], part, after);
    }
  }

  /** An installed RECORD need not hash itself. */
  lemma RecordMayBeUnhashed(inst: Installation, name: string)
    requires NamesRecord(name)
    ensures UnhashedIsFine(inst, name)
  {
    RecordNameIff(name);
    var stem :| name == stem + ".dist-info/RECORD";
    assert name == stem + ".dist-info/" + "RECORD";
    Within(stem, ".dist-info/", "RECORD");
    LastChar(name, ".dist-info/RECORD");
    LastChar(name, ".pyc");
  }

  lemma LastChar(name: string, suffix: string)
    requires suffix != ""
    ensures EndsWith(name, suffix) ==> name != "" && name[|name| - 1] == suffix[|suffix| - 1]
  {
    if EndsWith(name, suffix) { assert name[|name| - |suffix|..][|suffix| - 1] == suffix[|suffix| - 1]; }
  }

  /** What the installer writes into the distribution's own metadata may stay unhashed, cache files aside. */
  lemma MetadataMayBeUnhashed(inst: Installation, version: string, file: string)
    requires file == "" || file[|file| - 1] != 'c'
    ensures UnhashedIsFine(inst, "mixle-" + version + ".dist-info/" + file)
  {
    var name := "mixle-" + version + ".dist-info/" + file;
    assert name == ("mixle-" + version) + ".dist-info/" + file;
    Within("mixle-" + version, ".dist-info/", file);
    LastChar(name, ".pyc");
    assert "mixle-" <= name;
    assert name[|name| - 1] == if file == "" then '/' else file[|file| - 1];
  }

  lemma CacheNameIsBytecode(package: seq<string>, stem: string, tag: string)
    requires forall p :: p in package ==> '/' !in p
    requires stem != [] && '/' !in stem && '.' !in stem && '/' !in tag
    ensures IsInstallerBytecode(Join(package + ["__pycache__", stem + "." + (tag + ".pyc")], '/'))
  {
    var parts := package + ["__pycache__", stem + "." + (tag + ".pyc")];
    SplitJoin(parts, '/');
    JoinEnds(parts, '/', ".pyc");
  }

  lemma {:induction false} JoinEnds(parts: seq<string>, sep: char, suffix: string)
    requires |parts| >= 1 && EndsWith(parts[|parts| - 1], suffix)
    ensures EndsWith(Join(parts, sep), suffix)
  {
    if |parts| > 1 {
      JoinEnds(parts[1..], sep, suffix);
      var rest := Join(parts[1..], sep);
      var s := parts[0] + [sep] + rest;
      assert s[|s| - |suffix|..] == rest[|rest| - |suffix|..];
    }
  }

  /** A cache file of a module whose source is hashed, and with which it agrees. */
  ghost predicate IsCacheOf(inst: Installation, name: string, package: seq<string>, stem: string, tag: string) {
    && (forall p :: p in package ==> '/' !in p)
    && stem != [] && '/' !in stem && '.' !in stem && '/' !in tag
    && name == Join(package + ["__pycache__", stem + "." + (tag + ".pyc")], '/')
    && var source := Join(package + [stem + ".py"], '/');
    IsHashed(inst.rows, source) && inst.bytecodeMatches(name, source) == Some(true)
  }

  lemma CacheMayBeUnhashed(inst: Installation, name: string, package: seq<string>, stem: string, tag: string)
    requires IsCacheOf(inst, name, package, stem, tag)
    ensures UnhashedIsFine(inst, name)
  {
    SourceOfCompiled(package, stem, tag + ".pyc");
    CacheNameIsBytecode(package, stem, tag);
  }

  /** What an installer adds without a hash: its own RECORD, metadata of this distribution, and cache files that agree
      with their sources. */
  ghost predicate AddedByInstaller(inst: Installation, name: string) {
    || NamesRecord(name)
    || (exists version, file :: IsMetadata(name, version, file))
    || (exists package, stem, tag :: IsCacheOf(inst, name, package, stem, tag))
  }

  predicate IsMetadata(name: string, version: string, file: string) {
    name == "mixle-" + version + ".dist-info/" + file && (file == "" || file[|file| - 1] != 'c')
  }

  lemma AddedIsFine(inst: Installation, name: string)
    requires AddedByInstaller(inst, name)
    ensures UnhashedIsFine(inst, name)
  {
    if NamesRecord(name) {
      RecordMayBeUnhashed(inst, name);
    } else if version, file :| IsMetadata(name, version, file) {
      MetadataMayBeUnhashed(inst, version, file);
    } else {
      var package, stem, tag :| IsCacheOf(inst, name, package, stem, tag);
      CacheMayBeUnhashed(inst, name, package, stem, tag);
    }
  }

  function LineFor(tools: Tools, m: Member): Installed {
    Installed(m.name, Some(FileHash("sha256", Spelled(tools, m.data))))
  }

  /** The covered files are installed as they are, with a hashed line each, and every other line is one that an
      installer adds. */
  ghost predicate InstalledFaithfully(tools: Tools, archive: seq<Member>, inst: Installation) {
    && (forall m :: Covered(archive, m) ==>
          LineFor(tools, m) in inst.rows && m.name in inst.files && inst.files[m.name] == m.data)
    && forall r :: r in inst.rows ==>
         (r.hash.None? && AddedByInstaller(inst, r.name)) || exists m :: Covered(archive, m) && r == LineFor(tools, m)
  }

  lemma FaithfulIsSound(tools: Tools, archive: seq<Member>, k: int, inst: Installation)
    requires WellPacked(archive, k) && InstalledFaithfully(tools, archive, inst)
    ensures Sound(tools, inst)
  {
    forall r | r in inst.rows ensures RowIsFine(tools, inst, r) {
      if r.hash.None? {
        AddedIsFine(inst, r.name);
      } else {
        var m :| Covered(archive, m) && r == LineFor(tools, m);
      }
    }
    var m :| Covered(archive, m);
    assert LineFor(tools, m) in inst.rows;
  }

  lemma FaithfulAgrees(tools: Tools, archive: seq<Member>, k: int, h: Hashes, inst: Installation)
    requires WellPacked(archive, k) && InstalledFaithfully(tools, archive, inst) && Sound(tools, inst)
    requires WheelHashes(tools, archive) == Ok(h) && TrueDigests(tools, archive, h)
    ensures InstalledHashes(inst.rows).Some? && SameHashes(h, InstalledHashes(inst.rows).value)
  {
    forall m | m in archive && m.name in h && !IsDirectory(m.name)
      ensures IsHashed(inst.rows, m.name) && InstalledAs(tools, inst, m)
    {
      FileIff(m);
      var x :| Covered(archive, x) && x.name == m.name;
      assert Covered(archive, m);
      assert LineFor(tools, m) in inst.rows;
    }
    RecordsAgreeIffFilesDo(tools, archive, inst);
  }

  /** Code that runs from the one installed distribution, beside a provenance that names the wheel's commit, tree and
      content. */
  predicate RunsTheWheel(run: Running, build: map<string, string>) {
    && run.distributionRoot.Some? && run.packageRoots == [run.distributionRoot.value] && run.moduleInside
    && run.provenance.Some?
    && Field(run.provenance.value, "source_commit") == Field(build, "source_commit")
    && Field(run.provenance.value, "source_tree") == Field(build, "source_tree")
    && Field(run.provenance.value, "source_content_sha256") == Field(build, "source_content_sha256")
  }

  /** A wheel whose RECORD truly lists what it holds, installed as it is and running. */
  ghost predicate IsSoundRelease(tools: Tools, archive: seq<Member>, build: map<string, string>, k: int,
                                 rows: seq<Row>, h: Hashes, run: Running, inst: Installation) {
    && (forall data :: |tools.sha(data)| == 32) && WellPacked(archive, k)
    && RowsRead(tools, archive[k].data, rows)
    && TrueRows(tools, archive, k, rows) && TrueDigests(tools, archive, h)
    && InstalledFaithfully(tools, archive, inst) && RunsTheWheel(run, build)
  }

  lemma SoundReleaseIsBound(tools: Tools, archive: seq<Member>, build: map<string, string>, k: int, rows: seq<Row>,
                            h: Hashes, run: Running, inst: Installation)
    requires IsSoundRelease(tools, archive, build, k, rows, h, run, inst)
    ensures Bound(tools, archive, build, run, inst) && !BindingRaises(tools, archive, run, inst) && Sound(tools, inst)
  {
    TrueRecordIsAccepted(tools, archive, k, rows, h);
    FaithfulIsSound(tools, archive, k, inst);
    FaithfulAgrees(tools, archive, k, h, inst);
  }

  lemma SoundReleaseVerdict(tools: Tools, wheel: Wheel, k: int, rows: seq<Row>, h: Hashes, run: Running,
                            inst: Installation, claims: seq<bool>)
    requires IsSoundRelease(tools, wheel.archive, wheel.build, k, rows, h, run, inst)
    requires wheel.identified && AllHold(claims)
    ensures Passes(tools, wheel, run, inst, claims) && !BindingRaises(tools, wheel.archive, run, inst)
  {
    SoundReleaseIsBound(tools, wheel.archive, wheel.build, k, rows, h, run, inst);
  }

  /** A sound release passes: with every claim holding, its receipt is a passing one. */
  method SoundReleasePasses(tools: Tools, wheel: Wheel, k: int, ghost rows: seq<Row>, ghost h: Hashes, run: Running,
                            inst: Installation, claims: seq<bool>)
    returns (r: Result<bool, ReceiptError>)
    requires IsSoundRelease(tools, wheel.archive, wheel.build, k, rows, h, run, inst)
    requires wheel.identified && forall i :: 0 <= i < |claims| ==> claims[i]
    ensures r == Ok(true)
  {
    SoundReleaseVerdict(tools, wheel, k, rows, h, run, inst, claims);
    r := BuildReceipt(tools, Some(wheel), false, false, run, inst, claims);
  }

  // ---------------------------------------------------------------- what makes a receipt fail

  /** Code, libraries and data outside the metadata must be hashed: one line of such a file without a hash fails the
      receipt. */
  lemma UnhashedCodeFails(tools: Tools, wheel: Wheel, run: Running, inst: Installation, claims: seq<bool>, r: Installed,
                          stem: string, suffix: string)
    requires r in inst.rows && r.hash.None? && r.name == stem + suffix
    requires suffix == ".py" || suffix == ".so" || suffix == ".pyd" || suffix == ".json"
    requires !Contains(r.name, ".dist-info/")
    ensures !Passes(tools, wheel, run, inst, claims)
  {
    assert r.name[|r.name| - |suffix|..] == suffix;
    CodeIsNotFine(inst, r.name, suffix);
    assert !RowIsFine(tools, inst, r);
  }

  lemma CodeIsNotFine(inst: Installation, name: string, suffix: string)
    requires EndsWith(name, suffix) && !Contains(name, ".dist-info/")
    requires suffix == ".py" || suffix == ".so" || suffix == ".pyd" || suffix == ".json"
    ensures !UnhashedIsFine(inst, name)
  {
    LastChar(name, suffix);
    LastChar(name, ".pyc");
  }

  /** An unhashed line that is no cache file must be about a RECORD or about something of this distribution's own. */
  lemma ForeignUnhashedFails(tools: Tools, wheel: Wheel, run: Running, inst: Installation, claims: seq<bool>,
                             r: Installed)
    requires r in inst.rows && r.hash.None? && !NamesRecord(r.name)
    requires !("mixle-" <= r.name) && !("mixle." <= r.name)
    requires r.name == "" || r.name[|r.name| - 1] != 'c'
    ensures !Passes(tools, wheel, run, inst, claims)
  {
    RecordNameIff(r.name);
    LastChar(r.name, ".pyc");
    assert !RowIsFine(tools, inst, r);
  }

  /** Byte-compiled code must belong to a hashed source and agree with it. */
  lemma StrayBytecodeFails(tools: Tools, wheel: Wheel, run: Running, inst: Installation, claims: seq<bool>,
                           r: Installed, package: seq<string>, stem: string, tag: string)
    requires forall p :: p in package ==> '/' !in p
    requires stem != [] && '/' !in stem && '.' !in stem && '/' !in tag
    requires r.name == Join(package + ["__pycache__", stem + "." + (tag + ".pyc")], '/')
    requires r in inst.rows && r.hash.None?
    requires var source := Join(package + [stem + ".py"], '/');
      !IsHashed(inst.rows, source) || inst.bytecodeMatches(r.name, source) != Some(true)
    ensures !Passes(tools, wheel, run, inst, claims)
  {
    SourceOfCompiled(package, stem, tag + ".pyc");
    CacheNameIsBytecode(package, stem, tag);
    assert !RowIsFine(tools, inst, r);
  }

  /** A provenance that differs in commit, tree or content fails the receipt. */
  lemma OtherSourceFails(tools: Tools, wheel: Wheel, run: Running, inst: Installation, claims: seq<bool>, key: string)
    requires key == "source_commit" || key == "source_tree" || key == "source_content_sha256"
    requires run.provenance.Some? && Field(run.provenance.value, key) != Field(wheel.build, key)
    ensures !Passes(tools, wheel, run, inst, claims)
  {
  }
}
