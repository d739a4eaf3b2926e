/**
 The two gates that read a NUL-separated name-status diff and decide whether a pull request may skip a job.
 Decoding text and the git calls are parameters.
 */
module DiffStatus {
  import opened Bytes
  import opened Text

  type Decoder = seq<Byte> -> Option<string>

  type PathTest = string -> bool

  /** A diff record: a status and its raw paths, two for a rename or a copy. */
  datatype Record = Record(status: seq<Byte>, paths: seq<seq<Byte>>)

  datatype Problem = EmptyOrCut | BadStatus | BadRecord | BadPath

  // ---------------------------------------------------------------- splitting

  /** The fields between separators; there is always one more field than separators. */
  function Split<T(==)>(s: seq<T>, sep: T): (fields: seq<seq<T>>)
    ensures |fields| >= 1
    decreases |s|
  {
    var e := BreakAt(s, sep, 0);
    if e == |s| then [s] else [s[..e]] + Split(s[e + 1..], sep)
  }

  /** Every field followed by a separator. */
  function Terminated<T>(fields: seq<seq<T>>, sep: T): (s: seq<T>)
  {
    if fields == [] then [] else fields[0] + [sep] + Terminated(fields[1..], sep)
  }

  lemma SplitStep<T>(s: seq<T>, sep: T)
    ensures var e := BreakAt(s, sep, 0);
      if e == |s| then Split(s, sep) == [s]
      else Split(s, sep) == [s[..e]] + Split(s[e + 1..], sep)
  {
    hide BreakAt;
  }

  lemma {:induction false} FieldsHaveNoSeparator<T>(s: seq<T>, sep: T)
    ensures forall i :: 0 <= i < |Split(s, sep)| ==> sep !in Split(s, sep)[i]
    decreases |s|
  {
    var e := BreakAt(s, sep, 0);
    SplitStep(s, sep);
    hide Split;
    if e < |s| {
      FieldsHaveNoSeparator(s[e + 1..], sep);
    }
  }

  lemma TerminatedCons<T>(f: seq<T>, more: seq<seq<T>>, sep: T)
    ensures Terminated([f] + more, sep) == f + [sep] + Terminated(more, sep)
  {
    assert ([f] + more)[1..] == more;
  }

  lemma {:induction false} SplitTerminates<T>(s: seq<T>, sep: T)
    ensures Terminated(Split(s, sep), sep) == s + [sep]
    decreases |s|
  {
    var e := BreakAt(s, sep, 0);
    SplitStep(s, sep);
    assert Terminated([], sep) == [];
    hide BreakAt, Split, Terminated;
    if e == |s| {
      TerminatedCons(s, [], sep);
      assert [s] + [] == [s];
    } else {
      SplitTerminates(s[e + 1..], sep);
      TerminatedCons(s[..e], Split(s[e + 1..], sep), sep);
      CutAt(s, e);
      assert s[..e] + [sep] + (s[e + 1..] + [sep]) == s[..e] + [sep] + s[e + 1..] + [sep];
    }
  }

  lemma CutAt<T>(s: seq<T>, e: nat)
    requires e < |s|
    ensures s == s[..e] + [s[e]] + s[e + 1..]
  {
  }

  lemma SplitCons<T>(f: seq<T>, sep: T, rest: seq<T>)
    requires sep !in f
    ensures Split(f, sep) == [f]
    ensures Split(f + [sep] + rest, sep) == [f] + Split(rest, sep)
  {
    var s := f + [sep] + rest;
    assert s[|f|] == sep;
    assert forall i :: 0 <= i < |f| ==> s[i] == f[i] && f[i] in f;
    hide BreakAt;
    assert BreakAt(s, sep, 0) == |f| && BreakAt(f, sep, 0) == |f|;
    SplitStep(s, sep);
    SplitStep(f, sep);
    hide Split;
    assert s[..|f|] == f && s[|f| + 1..] == rest;
  }

  /** Splitting takes a terminated list of fields apart again. */
  lemma {:induction false} TerminatedSplits<T>(fields: seq<seq<T>>, sep: T)
    requires fields != [] && forall i :: 0 <= i < |fields| ==> sep !in fields[i]
    ensures var s := Terminated(fields, sep); |s| >= 1 && s[|s| - 1] == sep && Split(s[..|s| - 1], sep) == fields
    decreases |fields|
  {
    var f, more := fields[0], fields[1..];
    assert fields == [f] + more;
    assert Terminated([], sep) == [];
    hide Split, Terminated;
    TerminatedCons(f, more, sep);
    var t := Terminated(more, sep);
    if more == [] {
      assert (f + [sep] + t)[..|f|] == f;
      SplitCons(f, sep, []);
    } else {
      TerminatedSplits(more, sep);
      SplitCons(f, sep, t[..|t| - 1]);
      assert (f + [sep] + t)[..|f| + |t|] == f + [sep] + t[..|t| - 1];
    }
  }

  // ---------------------------------------------------------------- one record

  predicate IsDigits(s: seq<Byte>) {
    forall i :: 0 <= i < |s| ==> 48 <= s[i] <= 57
  }

  /** How many paths a status announces: one for A, D, M and T, two for R and C with a score, none if refused. */
  function PathCount(status: seq<Byte>): (n: nat)
    ensures n <= 2 && (n > 0 ==> 0 !in status)
  {
    if |status| == 1 && status[0] in {65, 68, 77, 84} then 1
    else if |status| == 4 && status[0] in {82, 67} && IsDigits(status[1..]) && Score(status) <= 100 then
      assert status == [status[0]] + status[1..];
      2
    else 0
  }

  function Score(status: seq<Byte>): (n: int)
    requires |status| == 4
  {
    var hundreds: int, tens: int, units: int := status[1], status[2], status[3];
    100 * (hundreds - 48) + 10 * (tens - 48) + (units - 48)
  }

  predicate FieldOk(dec: Decoder, ok: PathTest, raw: seq<Byte>) {
    dec(raw).Some? && ok(dec(raw).value)
  }

  predicate RecordOk(dec: Decoder, ok: PathTest, r: Record) {
    && PathCount(r.status) == |r.paths| > 0
    && forall i :: 0 <= i < |r.paths| ==> 0 !in r.paths[i] && FieldOk(dec, ok, r.paths[i])
  }

  predicate RecordsOk(dec: Decoder, ok: PathTest, rs: seq<Record>) {
    forall i :: 0 <= i < |rs| ==> RecordOk(dec, ok, rs[i])
  }

  function Fields(rs: seq<Record>): (fields: seq<seq<Byte>>)
  {
    if rs == [] then [] else [rs[0].status] + rs[0].paths + Fields(rs[1..])
  }

  /** The diff text of a list of records. */
  function Render(rs: seq<Record>): (data: seq<Byte>)
  {
    Terminated(Fields(rs), 0)
  }

  function Texts(dec: Decoder, raws: seq<seq<Byte>>): (paths: seq<string>)
    requires forall i :: 0 <= i < |raws| ==> dec(raws[i]).Some?
    ensures |paths| == |raws| && forall i :: 0 <= i < |raws| ==> paths[i] == dec(raws[i]).value
  {
    if raws == [] then [] else [dec(raws[0]).value] + Texts(dec, raws[1..])
  }

  function PathsOf(dec: Decoder, ok: PathTest, rs: seq<Record>): (paths: seq<string>)
    requires RecordsOk(dec, ok, rs)
  {
    if rs == [] then []
    else
      assert RecordOk(dec, ok, rs[0]);
      Texts(dec, rs[0].paths) + PathsOf(dec, ok, rs[1..])
  }

  // ---------------------------------------------------------------- parsing

  /** The fields of the first record, if it is a valid one. */
  function HeadRecord(dec: Decoder, ok: PathTest, fields: seq<seq<Byte>>): (r: Option<Record>)
    requires fields != []
    ensures r.Some? ==> 1 <= |r.value.paths| < |fields| && PathCount(fields[0]) == |r.value.paths|
    ensures r.Some? ==> r.value == Record(fields[0], fields[1..1 + |r.value.paths|])
    ensures r.Some? ==> forall i :: 0 <= i < |r.value.paths| ==> FieldOk(dec, ok, r.value.paths[i])
  {
    var n := PathCount(fields[0]);
    if n == 0 || 1 + n > |fields| then None
    else
      var paths := fields[1..1 + n];
      if forall i :: 0 <= i < |paths| ==> FieldOk(dec, ok, paths[i]) then Some(Record(fields[0], paths)) else None
  }

  function ParseFields(dec: Decoder, ok: PathTest, fields: seq<seq<Byte>>): (r: Option<seq<string>>)
    decreases |fields|
  {
    if fields == [] then Some([])
    else
      var head := HeadRecord(dec, ok, fields);
      if head.None? then None
      else
        var n := |head.value.paths|;
        var rest := ParseFields(dec, ok, fields[1 + n..]);
        if rest.None? then None else Some(Texts(dec, head.value.paths) + rest.value)
  }

  function Parse(dec: Decoder, ok: PathTest, data: seq<Byte>): (r: Option<seq<string>>)
  {
    if data == [] || data[|data| - 1] != 0 then None else ParseFields(dec, ok, Split(data[..|data| - 1], 0))
  }

  lemma ConsRecord(dec: Decoder, ok: PathTest, r: Record, rest: seq<Record>)
    requires RecordOk(dec, ok, r) && RecordsOk(dec, ok, rest)
    ensures RecordsOk(dec, ok, [r] + rest)
    ensures Fields([r] + rest) == [r.status] + r.paths + Fields(rest)
    ensures PathsOf(dec, ok, [r] + rest) == Texts(dec, r.paths) + PathsOf(dec, ok, rest)
  {
    hide RecordOk;
    assert ([r] + rest)[1..] == rest;
  }

  lemma HeadAndRest(dec: Decoder, ok: PathTest, fields: seq<seq<Byte>>)
    requires fields != [] && ParseFields(dec, ok, fields).Some?
    requires forall i :: 0 <= i < |fields| ==> 0 !in fields[i]
    ensures var head := HeadRecord(dec, ok, fields);
      && head.Some? && RecordOk(dec, ok, head.value)
      && var more := fields[1 + |head.value.paths|..];
         && ParseFields(dec, ok, more).Some?
         && fields == [head.value.status] + head.value.paths + more
         && ParseFields(dec, ok, fields).value == Texts(dec, head.value.paths) + ParseFields(dec, ok, more).value
  {
    hide PathCount;
  }

  lemma {:induction false} ParsedIsRendered(dec: Decoder, ok: PathTest, fields: seq<seq<Byte>>)
    returns (rs: seq<Record>)
    requires ParseFields(dec, ok, fields).Some? && forall i :: 0 <= i < |fields| ==> 0 !in fields[i]
    ensures RecordsOk(dec, ok, rs) && Fields(rs) == fields && PathsOf(dec, ok, rs) == ParseFields(dec, ok, fields).value
    decreases |fields|
  {
    if fields == [] {
      rs := [];
    } else {
      HeadAndRest(dec, ok, fields);
      hide ParseFields, HeadRecord, RecordOk, RecordsOk, PathsOf, Fields;
      var head := HeadRecord(dec, ok, fields).value;
      var rest := ParsedIsRendered(dec, ok, fields[1 + |head.paths|..]);
      ConsRecord(dec, ok, head, rest);
      rs := [head] + rest;
    }
  }

  lemma HeadOfRendered(dec: Decoder, ok: PathTest, r: Record, rest: seq<seq<Byte>>)
    requires RecordOk(dec, ok, r)
    ensures HeadRecord(dec, ok, [r.status] + r.paths + rest) == Some(r)
  {
    var fields := [r.status] + r.paths + rest;
    assert fields[0] == r.status && fields[1..1 + |r.paths|] == r.paths;
    hide PathCount;
  }

  lemma {:induction false} RenderedIsParsed(dec: Decoder, ok: PathTest, rs: seq<Record>)
    requires RecordsOk(dec, ok, rs)
    ensures ParseFields(dec, ok, Fields(rs)) == Some(PathsOf(dec, ok, rs))
    ensures forall i :: 0 <= i < |Fields(rs)| ==> 0 !in Fields(rs)[i]
    ensures rs != [] ==> Fields(rs) != [] && PathsOf(dec, ok, rs) != []
    decreases |rs|
  {
    if rs != [] {
      var r := rs[0];
      RenderedIsParsed(dec, ok, rs[1..]);
      assert RecordOk(dec, ok, r);
      HeadOfRendered(dec, ok, r, Fields(rs[1..]));
      var fields := Fields(rs);
      assert fields[1 + |r.paths|..] == Fields(rs[1..]);
      hide HeadRecord, RecordOk, PathCount;
    }
  }

  ghost predicate Renders(dec: Decoder, ok: PathTest, rs: seq<Record>, data: seq<Byte>, paths: seq<string>) {
    rs != [] && RecordsOk(dec, ok, rs) && Render(rs) == data && PathsOf(dec, ok, rs) == paths
  }

  lemma AcceptedRenders(dec: Decoder, ok: PathTest, data: seq<Byte>, paths: seq<string>)
    requires Parse(dec, ok, data) == Some(paths)
    ensures exists rs :: Renders(dec, ok, rs, data, paths)
  {
    var body := data[..|data| - 1];
    var fields := Split(body, 0);
    SplitTerminates(body, 0);
    FieldsHaveNoSeparator(body, 0);
    assert body + [0] == data;
    hide Split, ParseFields, Terminated;
    var rs := ParsedIsRendered(dec, ok, fields);
    hide PathsOf, RecordsOk;
    assert Renders(dec, ok, rs, data, paths);
  }

  /** A diff is accepted exactly when it renders a non-empty list of valid records; their paths come back in order. */
  lemma ParserAcceptsExactly(dec: Decoder, ok: PathTest, data: seq<Byte>, paths: seq<string>)
    ensures Parse(dec, ok, data) == Some(paths) <==> exists rs :: Renders(dec, ok, rs, data, paths)
    ensures Parse(dec, ok, data) == Some(paths) ==> paths != []
  {
    if rs :| Renders(dec, ok, rs, data, paths) {
      RenderedIsParsed(dec, ok, rs);
      TerminatedSplits(Fields(rs), 0);
    }
    if Parse(dec, ok, data) == Some(paths) {
      AcceptedRenders(dec, ok, data, paths);
      var rs :| Renders(dec, ok, rs, data, paths);
      RenderedIsParsed(dec, ok, rs);
    }
  }

  // ---------------------------------------------------------------- path tests

  /** Unicode category Cc. */
  predicate IsControl(c: char) {
    c as int < 0x20 || 0x7F <= c as int <= 0x9F
  }

  /** A path the test gate takes: relative, no drive, no backslash, no control character, no empty or dot part. */
  predicate TestPath(p: string) {
    && p != "" && p[0] != '/' && p[0] != '\\'
    && !(|p| > 2 && p[1] == ':' && (p[2] == '/' || p[2] == '\\'))
    && '\\' !in p
    && (forall i :: 0 <= i < |p| ==> !IsControl(p[i]))
    && (forall part :: part in Split(p, '/') ==> part != "" && part != "." && part != "..")
  }

  /** A path the formal gate takes. */
  predicate FormalPath(p: string) {
    p != "" && p[0] != '/' && '\0' !in p
  }

  ghost predicate AllPass(ok: PathTest, paths: seq<string>) {
    forall i :: 0 <= i < |paths| ==> ok(paths[i])
  }

  lemma AllPassJoin(ok: PathTest, a: seq<string>, b: seq<string>)
    ensures AllPass(ok, a + b) <==> AllPass(ok, a) && AllPass(ok, b)
  {
    if AllPass(ok, a + b) {
      forall i | 0 <= i < |a|
        ensures ok(a[i])
      {
        assert a[i] == (a + b)[i];
      }
      forall i | 0 <= i < |b|
        ensures ok(b[i])
      {
        assert b[i] == (a + b)[|a| + i];
      }
    }
  }

  lemma HeadUnderStricter(dec: Decoder, ok: PathTest, weaker: PathTest, fields: seq<seq<Byte>>)
    requires (forall p :: ok(p) ==> weaker(p)) && fields != []
    ensures var strict, loose := HeadRecord(dec, ok, fields), HeadRecord(dec, weaker, fields);
      && (strict.Some? ==> loose == strict)
      && (loose.Some? ==> (strict.Some? <==> AllPass(ok, Texts(dec, loose.value.paths))))
  {
    hide PathCount;
  }

  /** A stricter path test accepts exactly the accepted diffs whose paths all pass it. */
  lemma {:induction false} StricterFields(dec: Decoder, ok: PathTest, weaker: PathTest, fields: seq<seq<Byte>>)
    requires forall p :: ok(p) ==> weaker(p)
    ensures var strict, loose := ParseFields(dec, ok, fields), ParseFields(dec, weaker, fields);
      && (strict.Some? <==> loose.Some? && AllPass(ok, loose.value))
      && (strict.Some? ==> loose == strict)
    decreases |fields|
  {
    if fields != [] {
      ParseStep(dec, ok, fields);
      ParseStep(dec, weaker, fields);
      HeadUnderStricter(dec, ok, weaker, fields);
      hide HeadRecord, ParseFields, AllPass;
      var loose := HeadRecord(dec, weaker, fields);
      if loose.Some? {
        var rest := fields[1 + |loose.value.paths|..];
        StricterFields(dec, ok, weaker, rest);
        var more := ParseFields(dec, weaker, rest);
        if more.Some? {
          AllPassJoin(ok, Texts(dec, loose.value.paths), more.value);
        }
      }
    }
  }

  lemma TestPathIsFormal(p: string)
    ensures TestPath(p) ==> FormalPath(p)
  {
    if TestPath(p) {
      assert '\0' in p ==> IsControl('\0');
    }
  }

  /**
   For every diff: the test gate parses it if and only if the formal gate does and every path it returns
   is a test path; the paths are then the same.
   */
  lemma GatesParseAlike(dec: Decoder, data: seq<Byte>)
    ensures var test, formal := Parse(dec, TestPath, data), Parse(dec, FormalPath, data);
      && (test.Some? <==> formal.Some? && AllPass(TestPath, formal.value))
      && (test.Some? ==> formal == test)
  {
    forall p
      ensures TestPath(p) ==> FormalPath(p)
    {
      TestPathIsFormal(p);
    }
    hide TestPath, FormalPath, ParseFields, Split;
    if data != [] && data[|data| - 1] == 0 {
      StricterFields(dec, TestPath, FormalPath, Split(data[..|data| - 1], 0));
    }
  }

  /** The bytes of an added file `./a`: the formal gate parses that diff and the test gate refuses it. */
  const DOT_PATH_DIFF: seq<Byte> := [65, 0, 46, 47, 97, 0]

  lemma DotPathTellsGatesApart(dec: Decoder)
    requires dec([46, 47, 97]) == Some("./a")
    ensures Parse(dec, FormalPath, DOT_PATH_DIFF) == Some(["./a"]) && Parse(dec, TestPath, DOT_PATH_DIFF) == None
  {
    var r := Record([65], [[46, 47, 97]]);
    assert RecordOk(dec, FormalPath, r);
    DotPathRenders(dec, r);
    ParserAcceptsExactly(dec, FormalPath, DOT_PATH_DIFF, ["./a"]);
    DotPathIsNoTestPath();
    hide TestPath, FormalPath, Parse, Renders;
    GatesParseAlike(dec, DOT_PATH_DIFF);
    assert ["./a"][0] == "./a";
  }

  lemma DotPathRenders(dec: Decoder, r: Record)
    requires r == Record([65], [[46, 47, 97]]) && RecordOk(dec, FormalPath, r) && dec([46, 47, 97]) == Some("./a")
    ensures Renders(dec, FormalPath, [r], DOT_PATH_DIFF, ["./a"])
  {
    hide RecordOk, FormalPath;
    ConsRecord(dec, FormalPath, r, []);
    assert [r] + [] == [r];
    var f: seq<seq<Byte>> := [[65], [46, 47, 97]];
    assert Fields([]) == [] && PathsOf(dec, FormalPath, []) == [];
    assert Fields([r]) == f;
    TerminatedCons([65], [[46, 47, 97]], 0);
    TerminatedCons([46, 47, 97], [], 0);
    assert [[65]] + [[46, 47, 97]] == f && [[46, 47, 97]] + [] == [[46, 47, 97]];
    assert Terminated<Byte>([], 0) == [];
    assert Texts(dec, r.paths) == ["./a"];
  }

  lemma DotPathIsNoTestPath()
    ensures !TestPath("./a")
  {
    var p := "./a";
    assert BreakAt(p, '/', 1) == 1;
    assert BreakAt(p, '/', 0) == 1;
    assert p[..1] == ".";
    assert Split(p, '/')[0] == ".";
    assert "." in Split(p, '/');
  }

  // ---------------------------------------------------------------- the two loops

  predicate IsAscii(s: seq<Byte>) {
    forall i :: 0 <= i < |s| ==> s[i] < 128
  }

  lemma RefusedStatus(status: seq<Byte>)
    ensures !IsAscii(status) ==> PathCount(status) == 0
  {
    if PathCount(status) == 2 {
      assert forall i :: 0 <= i < 3 ==> status[1..][i] == status[i + 1];
    }
  }

  /** What is parsed so far: the paths before `index`, and the rest still to parse. */
  ghost predicate SoFar(dec: Decoder, ok: PathTest, fields: seq<seq<Byte>>, index: nat, paths: seq<string>) {
    && index <= |fields|
    && var rest := ParseFields(dec, ok, fields[index..]);
       ParseFields(dec, ok, fields) == if rest.None? then None else Some(paths + rest.value)
  }

  lemma StartSoFar(dec: Decoder, ok: PathTest, fields: seq<seq<Byte>>)
    ensures SoFar(dec, ok, fields, 0, [])
  {
    hide ParseFields;
    assert fields[0..] == fields;
    var rest := ParseFields(dec, ok, fields);
    assert rest.Some? ==> [] + rest.value == rest.value;
  }

  lemma EndSoFar(dec: Decoder, ok: PathTest, fields: seq<seq<Byte>>, paths: seq<string>)
    requires SoFar(dec, ok, fields, |fields|, paths)
    ensures ParseFields(dec, ok, fields) == Some(paths)
  {
    assert fields[|fields|..] == [];
    assert paths + [] == paths;
  }

  lemma StepSoFar(dec: Decoder, ok: PathTest, fields: seq<seq<Byte>>, index: nat, paths: seq<string>)
    requires SoFar(dec, ok, fields, index, paths) && index < |fields|
    ensures var head := HeadRecord(dec, ok, fields[index..]);
      if head.None? then ParseFields(dec, ok, fields) == None
      else SoFar(dec, ok, fields, index + 1 + |head.value.paths|, paths + Texts(dec, head.value.paths))
  {
    var suffix := fields[index..];
    var head := HeadRecord(dec, ok, suffix);
    ParseStep(dec, ok, suffix);
    hide HeadRecord, ParseFields;
    if head.Some? {
      var n := |head.value.paths|;
      assert suffix[1 + n..] == fields[index + 1 + n..];
      var rest := ParseFields(dec, ok, fields[index + 1 + n..]);
      if rest.Some? {
        JoinPaths(paths, Texts(dec, head.value.paths), rest.value);
      }
    }
  }

  lemma ParseStep(dec: Decoder, ok: PathTest, fields: seq<seq<Byte>>)
    requires fields != []
    ensures var head := HeadRecord(dec, ok, fields);
      if head.None? then ParseFields(dec, ok, fields) == None
      else
        var rest := ParseFields(dec, ok, fields[1 + |head.value.paths|..]);
        ParseFields(dec, ok, fields) == if rest.None? then None else Some(Texts(dec, head.value.paths) + rest.value)
  {
    hide HeadRecord;
  }

  lemma JoinPaths(a: seq<string>, b: seq<string>, c: seq<string>)
    ensures a + (b + c) == a + b + c
  {
  }

  /** Decode and test the path fields of one record. */
  method ReadPaths(dec: Decoder, ok: PathTest, raws: seq<seq<Byte>>) returns (good: bool, paths: seq<string>)
    ensures good <==> forall i :: 0 <= i < |raws| ==> FieldOk(dec, ok, raws[i])
    ensures good ==> paths == Texts(dec, raws)
  {
    paths := [];
    for i := 0 to |raws|
      invariant |paths| == i && forall j :: 0 <= j < i ==> FieldOk(dec, ok, raws[j]) && paths[j] == dec(raws[j]).value
    {
      var text := dec(raws[i]);
      if text.None? || !ok(text.value) {
        return false, [];
      }
      paths := paths + [text.value];
    }
    return true, paths;
  }

  lemma HeadIs(dec: Decoder, ok: PathTest, fields: seq<seq<Byte>>, index: nat)
    requires index < |fields|
    ensures var head, n := HeadRecord(dec, ok, fields[index..]), PathCount(fields[index]);
      && (head.Some? ==> n > 0 && index + 1 + n <= |fields| && head.value.paths == fields[index + 1..index + 1 + n])
      && (n > 0 && index + 1 + n <= |fields| ==>
            var raws := fields[index + 1..index + 1 + n];
            (head.Some? <==> forall i :: 0 <= i < |raws| ==> FieldOk(dec, ok, raws[i])))
  {
    var n := PathCount(fields[index]);
    assert fields[index..][0] == fields[index];
    hide PathCount;
    if index + 1 + n <= |fields| {
      assert fields[index..][1..1 + n] == fields[index + 1..index + 1 + n];
    }
  }

  /** The test gate decides status and number of paths together; zero is a refusal. */
  method CountForTests(status: seq<Byte>) returns (count: nat)
    ensures count == PathCount(status)
  {
    RefusedStatus(status);
    if !IsAscii(status) {
      return 0;
    }
    if |status| == 1 && status[0] in {65, 68, 77, 84} {
      return 1;
    } else if |status| == 4 && status[0] in {82, 67} && IsDigits(status[1..]) && Score(status) <= 100 {
      return 2;
    }
    return 0;
  }

  /** The formal gate fixes the number of paths first and then refuses a status check by check. */
  method CountForFormal(status: seq<Byte>) returns (count: nat)
    ensures count == PathCount(status)
  {
    RefusedStatus(status);
    if !IsAscii(status) {
      return 0;
    }
    var scored := status != [] && (status[0] == 82 || status[0] == 67);
    count := if scored then 2 else 1;
    if status == [] || status[0] !in {65, 67, 68, 77, 82, 84} {
      return 0;
    }
    if !scored && |status| != 1 {
      return 0;
    }
    if scored && (|status| != 4 || !IsDigits(status[1..]) || Score(status) > 100) {
      return 0;
    }
  }

  /** The rest of one turn of either loop, once the status has announced its paths. */
  method TakeRecord(dec: Decoder, ok: PathTest, fields: seq<seq<Byte>>, index: nat, paths: seq<string>, count: nat)
    returns (problem: Option<Problem>, next: nat, longer: seq<string>)
    requires SoFar(dec, ok, fields, index, paths) && index < |fields| && count == PathCount(fields[index])
    ensures problem.Some? ==> ParseFields(dec, ok, fields) == None
    ensures problem.None? ==> index < next <= |fields| && SoFar(dec, ok, fields, next, longer)
  {
    HeadIs(dec, ok, fields, index);
    StepSoFar(dec, ok, fields, index, paths);
    hide SoFar, ParseFields, HeadRecord, PathCount, FieldOk;
    next, longer := index + 1, paths;
    if count == 0 {
      return Some(BadStatus), next, longer;
    }
    if next + count > |fields| {
      return Some(BadRecord), next, longer;
    }
    var good, more := ReadPaths(dec, ok, fields[next..next + count]);
    if !good {
      return Some(BadPath), next, longer;
    }
    return None, next + count, paths + more;
  }

  /** The test gate's parser. */
  method ParseForTests(dec: Decoder, data: seq<Byte>) returns (r: Result<seq<string>, Problem>)
    ensures r.Ok? ==> Parse(dec, TestPath, data) == Some(r.value)
    ensures r.Err? ==> Parse(dec, TestPath, data) == None
  {
    if data == [] || data[|data| - 1] != 0 {
      return Err(EmptyOrCut);
    }
    hide TestPath, SoFar, ParseFields, HeadRecord, PathCount, Split, FieldOk;
    var fields := Split(data[..|data| - 1], 0);
    var paths: seq<string>, index := [], 0;
    StartSoFar(dec, TestPath, fields);
    while index < |fields|
      invariant index <= |fields| && SoFar(dec, TestPath, fields, index, paths)
    {
      var count := CountForTests(fields[index]);
      var problem, next, longer := TakeRecord(dec, TestPath, fields, index, paths, count);
      if problem.Some? {
        return Err(problem.value);
      }
      index, paths := next, longer;
    }
    EndSoFar(dec, TestPath, fields, paths);
    return Ok(paths);
  }

  /** The formal gate's parser. */
  method ParseForFormal(dec: Decoder, data: seq<Byte>) returns (r: Result<seq<string>, Problem>)
    ensures r.Ok? ==> Parse(dec, FormalPath, data) == Some(r.value)
    ensures r.Err? ==> Parse(dec, FormalPath, data) == None
  {
    if data == [] || data[|data| - 1] != 0 {
      return Err(EmptyOrCut);
    }
    hide FormalPath, SoFar, ParseFields, HeadRecord, PathCount, Split, FieldOk;
    var fields := Split(data[..|data| - 1], 0);
    var paths: seq<string>, index := [], 0;
    StartSoFar(dec, FormalPath, fields);
    while index < |fields|
      invariant index <= |fields| && SoFar(dec, FormalPath, fields, index, paths)
    {
      var count := CountForFormal(fields[index]);
      var problem, next, longer := TakeRecord(dec, FormalPath, fields, index, paths, count);
      if problem.Some? {
        return Err(problem.value);
      }
      index, paths := next, longer;
    }
    EndSoFar(dec, FormalPath, fields, paths);
    return Ok(paths);
  }

  // ---------------------------------------------------------------- decisions

  datatype Decision = Decision(run: bool, count: nat)

  /** What the git calls and the environment answer; each is consulted only when the earlier ones allow it. */
  datatype World = World(
    pullRequest: bool, baseOk: bool, baseKnown: bool, baseIsAncestor: bool, delegated: bool, diffOk: bool,
    diff: seq<Byte>)

  /** The scan of the paths: the first input found decides to run. */
  method ScanPaths(paths: seq<string>, input: PathTest) returns (d: Decision)
    ensures d.run <==> exists i :: 0 <= i < |paths| && input(paths[i])
    ensures d.count == |paths|
  {
    for i := 0 to |paths|
      invariant forall j :: 0 <= j < i ==> !input(paths[j])
    {
      if input(paths[i]) {
        return Decision(true, |paths|);
      }
    }
    return Decision(false, |paths|);
  }

  /** The formal gate runs on an empty list too. */
  method ClassifyPaths(paths: seq<string>, input: PathTest) returns (d: Decision)
    ensures d.run <==> paths == [] || exists i :: 0 <= i < |paths| && input(paths[i])
    ensures d.count == |paths|
  {
    if paths == [] {
      return Decision(true, 0);
    }
    d := ScanPaths(paths, input);
  }

  ghost predicate AllOutside(paths: seq<string>, input: PathTest) {
    forall i :: 0 <= i < |paths| ==> !input(paths[i])
  }

  /** The test gate runs unless every check passes, the diff parses and no path is an input. */
  method DecideTests(dec: Decoder, input: PathTest, w: World) returns (d: Decision)
    ensures !d.run <==>
      && w.pullRequest && w.baseOk && w.baseKnown && w.baseIsAncestor && !w.delegated && w.diffOk
      && Parse(dec, TestPath, w.diff).Some? && AllOutside(Parse(dec, TestPath, w.diff).value, input)
    ensures !d.run ==> d.count == |Parse(dec, TestPath, w.diff).value| > 0
  {
    hide Parse, TestPath;
    if !w.pullRequest || !w.baseOk || !w.baseKnown || !w.baseIsAncestor || w.delegated || !w.diffOk {
      return Decision(true, 0);
    }
    var parsed := ParseForTests(dec, w.diff);
    if parsed.Err? {
      return Decision(true, 0);
    }
    ParserAcceptsExactly(dec, TestPath, w.diff, parsed.value);
    d := ScanPaths(parsed.value, input);
  }

  /** The formal gate: its check for an empty list never matters, since a parsed diff has a path. */
  method DecideFormal(dec: Decoder, input: PathTest, w: World) returns (d: Decision)
    ensures !d.run <==>
      && w.pullRequest && w.baseOk && w.baseKnown && w.diffOk
      && Parse(dec, FormalPath, w.diff).Some? && AllOutside(Parse(dec, FormalPath, w.diff).value, input)
    ensures !d.run ==> d.count == |Parse(dec, FormalPath, w.diff).value| > 0
  {
    hide Parse, FormalPath;
    if !w.pullRequest || !w.baseOk || !w.baseKnown || !w.diffOk {
      return Decision(true, 0);
    }
    var parsed := ParseForFormal(dec, w.diff);
    if parsed.Err? {
      return Decision(true, 0);
    }
    ParserAcceptsExactly(dec, FormalPath, w.diff, parsed.value);
    d := ClassifyPaths(parsed.value, input);
  }

  lemma {:induction false} RecordPathIsListed(dec: Decoder, ok: PathTest, rs: seq<Record>, r: nat, i: nat)
    requires RecordsOk(dec, ok, rs) && r < |rs| && i < |rs[r].paths|
    ensures RecordOk(dec, ok, rs[r]) && dec(rs[r].paths[i]).value in PathsOf(dec, ok, rs)
    decreases r
  {
    assert RecordOk(dec, ok, rs[0]) && RecordOk(dec, ok, rs[r]);
    if r > 0 {
      RecordPathIsListed(dec, ok, rs[1..], r - 1, i);
    } else {
      assert Texts(dec, rs[0].paths)[i] in Texts(dec, rs[0].paths);
    }
  }

  /** A skipped diff: whatever records it renders, every path of each, both sides of a rename included, is no input. */
  lemma SkipIsSafe(dec: Decoder, ok: PathTest, input: PathTest, rs: seq<Record>)
    requires rs != [] && RecordsOk(dec, ok, rs)
    ensures Parse(dec, ok, Render(rs)) == Some(PathsOf(dec, ok, rs))
    ensures AllOutside(PathsOf(dec, ok, rs), input) ==>
      forall r, i :: 0 <= r < |rs| && 0 <= i < |rs[r].paths| ==>
        dec(rs[r].paths[i]).Some? && !input(dec(rs[r].paths[i]).value)
  {
    assert Renders(dec, ok, rs, Render(rs), PathsOf(dec, ok, rs));
    ParserAcceptsExactly(dec, ok, Render(rs), PathsOf(dec, ok, rs));
    hide Parse, Render, PathsOf;
    if AllOutside(PathsOf(dec, ok, rs), input) {
      forall r, i | 0 <= r < |rs| && 0 <= i < |rs[r].paths|
        ensures dec(rs[r].paths[i]).Some? && !input(dec(rs[r].paths[i]).value)
      {
        RecordPathIsListed(dec, ok, rs, r, i);
      }
    }
  }
}
