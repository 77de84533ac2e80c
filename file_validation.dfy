/** The file validation chain (`validate_files`): every file found is run
    through five rules in a fixed order, stopping at the first failure, and
    ends up among the valid paths or among the (path, reason) pairs. A file
    is a record of what the rules look at. */
module FileValidation {
  import opened Common
  import opened Ascii
  import opened HeaderAliases
  import opened Records

  /** A file as the rules see it: its full path, its size in bytes, whether
      pandas can read it, its header row and its data rows, where a missing
      or empty cell reads as null (None). */
  datatype CsvFile = CsvFile(
    path: string,
    size: nat,
    readable: bool,
    header: seq<string>,
    rows: seq<seq<Option<string>>>)

  /** What a rule returns: `(True, None)`, `(False, reason)`, or the bare
      `False` of the required-content rule's exception handler. */
  datatype Outcome = Pass | Fail(reason: string) | BareFalse

  datatype Rule = NotEmpty | IsCsv | FollowsTemplate | NotDuplicate | RequiredContent

  /** The rule list of `validate_files`, in order. */
  const Rules: seq<Rule> := [NotEmpty, IsCsv, FollowsTemplate, NotDuplicate, RequiredContent]

  /** What the rules are built from: the partner's header template, the
      alias table of the parser, and the file names already ingested. */
  datatype Context = Context(template: seq<string>, aliases: AliasTable, ingested: set<string>)

  // -----------------------------------------------------------------------
  // The rules

  /** `is_not_empty` */
  function IsNotEmpty(f: CsvFile): (r: Outcome)
    ensures r == Pass <==> f.size > 0
    ensures r != Pass ==> r == Fail("File is empty")
  {
    if f.size > 0 then Pass else Fail("File is empty")
  }

  /** `is_csv`: the extension test is case-sensitive. */
  function IsCsvFile(f: CsvFile): (r: Outcome)
    ensures r == Pass <==> EndsWith(f.path, ".csv")
    ensures r != Pass ==> r == Fail("File is not a csv")
  {
    if EndsWith(f.path, ".csv") then Pass else Fail("File is not a csv")
  }

  /** The header step of `clean_and_save_csv`: every space is removed from
      every header. */
  function CleanHeader(header: seq<string>): (r: seq<string>)
    ensures |r| == |header|
    ensures forall j :: 0 <= j < |r| ==> r[j] == RemoveSpaces(header[j])
    ensures forall j :: 0 <= j < |r| ==> ' ' !in r[j]
    ensures forall j :: 0 <= j < |r| ==> forall c :: c != ' ' ==> (c in r[j] <==> c in header[j])
  {
    seq(|header|, j requires 0 <= j < |header| => RemoveSpaces(header[j]))
  }

  /** `follows_template`: the file is rewritten with clean headers, read
      back, and its header list must equal the template exactly (no alias
      resolution). An unreadable file fails with the generic reason and is
      left as it was. The rule returns the file as it is afterwards. */
  function FollowsTemplateRule(f: CsvFile, template: seq<string>): (r: (Outcome, CsvFile))
    ensures !f.readable ==> r == (Fail("There was an error checking the template"), f)
    ensures f.readable ==> r.1 == f.(header := CleanHeader(f.header))
    ensures f.readable ==> (r.0 == Pass <==> CleanHeader(f.header) == template)
    ensures f.readable && r.0 != Pass ==> r.0 == Fail("File does not follow template")
  {
    if !f.readable then (Fail("There was an error checking the template"), f)
    else
      var g := f.(header := CleanHeader(f.header));
      (if g.header == template then Pass else Fail("File does not follow template"), g)
  }

  /** `file_path.split("\\")[-1]`: what follows the last backslash. */
  function BaseName(path: string): (r: string)
    ensures '\\' !in r
    ensures EndsWith(path, r)
    ensures '\\' !in path ==> r == path
  {
    if path == [] then []
    else if path[|path| - 1] == '\\' then []
    else
      var r := BaseName(path[..|path| - 1]) + [path[|path| - 1]];
      assert path[..|path| - 1][|path| - 1 - (|r| - 1)..] + [path[|path| - 1]] == path[|path| - |r|..];
      r
  }

  /** `is_not_duplicate`: the file is new when its name is not in the store. */
  function IsNotDuplicate(f: CsvFile, ingested: set<string>): (r: Outcome)
    ensures r == Pass <==> BaseName(f.path) !in ingested
    ensures r != Pass ==> r == Fail("File is a duplicate")
  {
    if BaseName(f.path) !in ingested then Pass else Fail("File is a duplicate")
  }

  /** Some row holds a non-null value in column `j`. */
  predicate HasValue(rows: seq<seq<Option<string>>>, j: nat)
  {
    exists i :: 0 <= i < |rows| && j < |rows[i]| && rows[i][j].Some?
  }

  /** How often a label occurs among the columns. */
  function Occurrences(cols: seq<string>, c: string): (n: nat)
    ensures n == 0 <==> c !in cols
    ensures n <= |cols|
  {
    if cols == [] then 0
    else (if cols[0] == c then 1 else 0) + Occurrences(cols[1..], c)
  }

  /** The position of the first column labelled `c`. */
  function ColumnIndex(cols: seq<string>, c: string): (j: nat)
    requires c in cols
    ensures j < |cols| && cols[j] == c
    ensures forall m :: 0 <= m < j ==> cols[m] != c
  {
    if cols[0] == c then 0 else 1 + ColumnIndex(cols[1..], c)
  }

  /** Required column `c` is present exactly once and holds a value. */
  predicate ColumnFilled(cols: seq<string>, rows: seq<seq<Option<string>>>, c: string)
  {
    Occurrences(cols, c) == 1 && HasValue(rows, ColumnIndex(cols, c))
  }

  /** The required columns from position `k` on, in list order. `df[c]`
      raises for a missing label and yields a frame, whose `tolist` raises,
      for a repeated one; either way the handler returns a bare `False`. */
  function RequiredFrom(cols: seq<string>, rows: seq<seq<Option<string>>>, k: nat): (r: Outcome)
    requires k <= |RequiredColumns|
    decreases |RequiredColumns| - k
  {
    if k == |RequiredColumns| then Pass
    else
      var c := RequiredColumns[k];
      if Occurrences(cols, c) != 1 then BareFalse
      else if !HasValue(rows, ColumnIndex(cols, c)) then Fail("Column " + c + " is empty")
      else RequiredFrom(cols, rows, k + 1)
  }

  /** `it_has_required_content`: the file's columns after alias renaming. */
  function RequiredContentRule(f: CsvFile, aliases: AliasTable): (r: Outcome)
    ensures r == Pass <==> forall m :: 0 <= m < |RequiredColumns| ==>
      ColumnFilled(Standardize(aliases, f.header), f.rows, RequiredColumns[m])
    ensures r.Fail? <==>
      exists m :: 0 <= m < |RequiredColumns| &&
        FirstUnfilled(Standardize(aliases, f.header), f.rows, 0, m) &&
        Occurrences(Standardize(aliases, f.header), RequiredColumns[m]) == 1 &&
        r == Fail("Column " + RequiredColumns[m] + " is empty")
  {
    var cols := Standardize(aliases, f.header);
    RequiredFromPasses(cols, f.rows, 0);
    RequiredFromReason(cols, f.rows, 0);
    RequiredFrom(cols, f.rows, 0)
  }

  /** `_check(file_path, rule)`: the rule applied to the file, with the file
      as it is afterwards. */
  function Check(rule: Rule, f: CsvFile, ctx: Context): (r: (Outcome, CsvFile))
    ensures rule != FollowsTemplate ==> r.1 == f
    ensures r.1.path == f.path
  {
    match rule
    case NotEmpty => (IsNotEmpty(f), f)
    case IsCsv => (IsCsvFile(f), f)
    case FollowsTemplate => FollowsTemplateRule(f, ctx.template)
    case NotDuplicate => (IsNotDuplicate(f, ctx.ingested), f)
    case RequiredContent => (RequiredContentRule(f, ctx.aliases), f)
  }

  // -----------------------------------------------------------------------
  // The chain

  /** What the chain makes of one file. */
  datatype Verdict = Valid | Invalid(reason: string) | Crash

  /** The rules from position `k` on, each seeing the file as the previous
      ones left it, stopping at the first that does not pass. */
  function RunChainFrom(k: nat, f: CsvFile, ctx: Context): Verdict
    requires k <= |Rules|
    decreases |Rules| - k
  {
    if k == |Rules| then Valid
    else
      var (o, g) := Check(Rules[k], f, ctx);
      match o
      case Pass => RunChainFrom(k + 1, g, ctx)
      case Fail(reason) => Invalid(reason)
      case BareFalse => Crash
  }

  function RunChain(f: CsvFile, ctx: Context): Verdict
  {
    RunChainFrom(0, f, ctx)
  }

  /** The chain spelled out rule by rule: the first failing rule, in the
      order not-empty, csv, template, not-duplicate, required-content,
      gives the reason; the content rule sees the cleaned headers. */
  lemma ChainVerdict(f: CsvFile, ctx: Context)
    ensures f.size == 0 ==> RunChain(f, ctx) == Invalid("File is empty")
    ensures f.size > 0 && !EndsWith(f.path, ".csv") ==> RunChain(f, ctx) == Invalid("File is not a csv")
    ensures f.size > 0 && EndsWith(f.path, ".csv") && !f.readable ==>
      RunChain(f, ctx) == Invalid("There was an error checking the template")
    ensures f.size > 0 && EndsWith(f.path, ".csv") && f.readable && CleanHeader(f.header) != ctx.template ==>
      RunChain(f, ctx) == Invalid("File does not follow template")
    ensures (f.size > 0 && EndsWith(f.path, ".csv") && f.readable && CleanHeader(f.header) == ctx.template &&
             BaseName(f.path) in ctx.ingested) ==>
      RunChain(f, ctx) == Invalid("File is a duplicate")
    ensures (f.size > 0 && EndsWith(f.path, ".csv") && f.readable && CleanHeader(f.header) == ctx.template &&
             BaseName(f.path) !in ctx.ingested) ==>
      var content := RequiredContentRule(f.(header := CleanHeader(f.header)), ctx.aliases);
      RunChain(f, ctx) == (match content case Pass => Valid case Fail(r) => Invalid(r) case BareFalse => Crash)
  {
    var g := f.(header := CleanHeader(f.header));
    ChainAt0(f, ctx);
    ChainAt1(f, ctx);
    ChainAt2(f, ctx);
    ChainAt3(g, ctx);
    ChainAt4(g, ctx);
  }

  // One rule of the chain at a time, each unfolding `RunChainFrom` once.

  lemma ChainAt0(f: CsvFile, ctx: Context)
    ensures RunChain(f, ctx) == if f.size == 0 then Invalid("File is empty") else RunChainFrom(1, f, ctx)
  {
  }

  lemma ChainAt1(f: CsvFile, ctx: Context)
    ensures RunChainFrom(1, f, ctx) ==
      if !EndsWith(f.path, ".csv") then Invalid("File is not a csv") else RunChainFrom(2, f, ctx)
  {
  }

  lemma ChainAt2(f: CsvFile, ctx: Context)
    ensures RunChainFrom(2, f, ctx) ==
      if !f.readable then Invalid("There was an error checking the template")
      else if CleanHeader(f.header) != ctx.template then Invalid("File does not follow template")
      else RunChainFrom(3, f.(header := CleanHeader(f.header)), ctx)
  {
  }

  lemma ChainAt3(g: CsvFile, ctx: Context)
    ensures RunChainFrom(3, g, ctx) ==
      if BaseName(g.path) in ctx.ingested then Invalid("File is a duplicate") else RunChainFrom(4, g, ctx)
  {
  }

  lemma ChainAt4(g: CsvFile, ctx: Context)
    ensures RunChainFrom(4, g, ctx) ==
      match RequiredContentRule(g, ctx.aliases) case Pass => Valid case Fail(r) => Invalid(r) case BareFalse => Crash
  {
    assert RunChainFrom(5, g, ctx) == Valid;
  }

  /** The content rule passes exactly when every required column occurs
      once after renaming and holds a non-null value. */
  lemma {:induction false} RequiredFromPasses(cols: seq<string>, rows: seq<seq<Option<string>>>, k: nat)
    requires k <= |RequiredColumns|
    ensures RequiredFrom(cols, rows, k) == Pass <==>
      forall m :: k <= m < |RequiredColumns| ==> ColumnFilled(cols, rows, RequiredColumns[m])
    decreases |RequiredColumns| - k
  {
    if k < |RequiredColumns| {
      var c := RequiredColumns[k];
      if ColumnFilled(cols, rows, c) {
        RequiredFromSkips(cols, rows, k);
        RequiredFromPasses(cols, rows, k + 1);
        assert (forall m :: k <= m < |RequiredColumns| ==> ColumnFilled(cols, rows, RequiredColumns[m])) <==>
          (forall m :: k + 1 <= m < |RequiredColumns| ==> ColumnFilled(cols, rows, RequiredColumns[m]));
      } else {
        assert RequiredFrom(cols, rows, k) != Pass;
      }
    }
  }

  /** Column `m` is the first of the required columns from `k` on that is
      not filled. */
  predicate FirstUnfilled(cols: seq<string>, rows: seq<seq<Option<string>>>, k: nat, m: nat)
    requires m < |RequiredColumns|
  {
    k <= m && !ColumnFilled(cols, rows, RequiredColumns[m]) &&
    forall j :: k <= j < m ==> ColumnFilled(cols, rows, RequiredColumns[j])
  }

  /** The first unfilled required column decides the outcome: a missing or
      repeated label gives the bare `False`, a single label without any
      value gives the message naming it. */
  lemma {:induction false} RequiredFromFirst(cols: seq<string>, rows: seq<seq<Option<string>>>, k: nat, m: nat)
    requires k <= m < |RequiredColumns|
    requires FirstUnfilled(cols, rows, k, m)
    ensures Occurrences(cols, RequiredColumns[m]) != 1 ==> RequiredFrom(cols, rows, k) == BareFalse
    ensures Occurrences(cols, RequiredColumns[m]) == 1 ==>
      !HasValue(rows, ColumnIndex(cols, RequiredColumns[m])) &&
      RequiredFrom(cols, rows, k) == Fail("Column " + RequiredColumns[m] + " is empty")
    decreases m - k
  {
    if k < m {
      RequiredFromSkips(cols, rows, k);
      RequiredFromFirst(cols, rows, k + 1, m);
    }
  }

  /** A filled required column passes on to the next one. */
  lemma RequiredFromSkips(cols: seq<string>, rows: seq<seq<Option<string>>>, k: nat)
    requires k < |RequiredColumns|
    requires ColumnFilled(cols, rows, RequiredColumns[k])
    ensures RequiredFrom(cols, rows, k) == RequiredFrom(cols, rows, k + 1)
  {
  }

  /** The two failing outcomes, each characterised by the first unfilled
      required column. */
  lemma {:induction false} RequiredFromReason(cols: seq<string>, rows: seq<seq<Option<string>>>, k: nat)
    requires k <= |RequiredColumns|
    ensures RequiredFrom(cols, rows, k) == BareFalse <==>
      exists m :: k <= m < |RequiredColumns| && FirstUnfilled(cols, rows, k, m) &&
        Occurrences(cols, RequiredColumns[m]) != 1
    ensures RequiredFrom(cols, rows, k).Fail? <==>
      exists m :: k <= m < |RequiredColumns| && FirstUnfilled(cols, rows, k, m) &&
        Occurrences(cols, RequiredColumns[m]) == 1 &&
        RequiredFrom(cols, rows, k) == Fail("Column " + RequiredColumns[m] + " is empty")
    decreases |RequiredColumns| - k
  {
    if k < |RequiredColumns| {
      var c := RequiredColumns[k];
      if !ColumnFilled(cols, rows, c) {
        assert FirstUnfilled(cols, rows, k, k);
        RequiredFromFirst(cols, rows, k, k);
        forall m | k <= m < |RequiredColumns| && FirstUnfilled(cols, rows, k, m)
          ensures m == k
        {
        }
      } else {
        RequiredFromReason(cols, rows, k + 1);
        forall m | k <= m < |RequiredColumns|
          ensures FirstUnfilled(cols, rows, k, m) <==> k + 1 <= m && FirstUnfilled(cols, rows, k + 1, m)
        {
        }
      }
    }
  }

  // -----------------------------------------------------------------------
  // `validate_files`

  /** The failure that escapes `validate_files`: unpacking the bare `False`
      of the content rule raises a TypeError. */
  datatype ValidationError = CannotUnpack(path: string)

  type Lists = (seq<string>, seq<(string, string)>)

  /** What the chain makes of each file. */
  function Verdicts(files: seq<CsvFile>, ctx: Context): (vs: seq<Verdict>)
    ensures |vs| == |files|
  {
    seq(|files|, i requires 0 <= i < |files| => RunChain(files[i], ctx))
  }

  lemma VerdictAt(files: seq<CsvFile>, ctx: Context, i: nat)
    requires i < |files|
    ensures Verdicts(files, ctx)[i] == RunChain(files[i], ctx)
  {
  }

  /** `(valid_files, invalid_files)` after the first `n` files, where
      `vs[i]` is file `i`'s verdict. */
  function ListsUpTo(files: seq<CsvFile>, vs: seq<Verdict>, n: nat): Result<Lists, ValidationError>
    requires |vs| == |files| && n <= |files|
  {
    if n == 0 then Ok(([], []))
    else
      match ListsUpTo(files, vs, n - 1)
      case Err(e) => Err(e)
      case Ok(lists) =>
        var path := files[n - 1].path;
        match vs[n - 1]
        case Valid => Ok((lists.0 + [path], lists.1))
        case Invalid(reason) => Ok((lists.0, lists.1 + [(path, reason)]))
        case Crash => Err(CannotUnpack(path))
  }

  /** The result of `validate_files`. */
  function ValidateSpec(files: seq<CsvFile>, ctx: Context): Result<Lists, ValidationError>
  {
    ListsUpTo(files, Verdicts(files, ctx), |files|)
  }

  lemma {:induction false} ListsErrorPersists(files: seq<CsvFile>, vs: seq<Verdict>, n: nat, m: nat)
    requires |vs| == |files| && n <= m <= |files|
    requires ListsUpTo(files, vs, n).Err?
    ensures ListsUpTo(files, vs, m) == ListsUpTo(files, vs, n)
    decreases m - n
  {
    if n < m {
      ListsErrorPersists(files, vs, n + 1, m);
    }
  }

  /** One step of the fold, split on the file's verdict. */
  lemma ListsStep(files: seq<CsvFile>, vs: seq<Verdict>, n: nat)
    requires |vs| == |files| && n < |files|
    requires ListsUpTo(files, vs, n).Ok?
    ensures var lists := ListsUpTo(files, vs, n).value;
      ListsUpTo(files, vs, n + 1) ==
        match vs[n]
        case Valid => Ok((lists.0 + [files[n].path], lists.1))
        case Invalid(reason) => Ok((lists.0, lists.1 + [(files[n].path, reason)]))
        case Crash => Err(CannotUnpack(files[n].path))
  {
  }

  /** The inner loop of `validate_files` for one file: the rules one by
      one, each on the file as the previous left it, with a `break` at the
      first failure. A bare `False` cannot be unpacked. */
  method RunRules(file: CsvFile, ctx: Context) returns (v: Verdict)
    ensures v == RunChain(file, ctx)
  {
    var f := file;
    var k := 0;
    while k < |Rules|
      invariant 0 <= k <= |Rules|
      invariant RunChain(file, ctx) == RunChainFrom(k, f, ctx)
    {
      var (outcome, after) := Check(Rules[k], f, ctx);
      if outcome.BareFalse? {
        return Crash;
      }
      f := after;
      if outcome.Fail? {
        return Invalid(outcome.reason);
      }
      k := k + 1;
    }
    return Valid;
  }

  /** The body of `validate_files`'s outer loop for file `n`: the lists
      after the file are the fold's after `n + 1` files. */
  method ValidateFile(files: seq<CsvFile>, ghost vs: seq<Verdict>, ctx: Context, n: nat,
                      validFiles: seq<string>, invalidFiles: seq<(string, string)>)
    returns (r: Result<Lists, ValidationError>)
    requires vs == Verdicts(files, ctx) && n < |files|
    requires ListsUpTo(files, vs, n) == Ok((validFiles, invalidFiles))
    ensures r == ListsUpTo(files, vs, n + 1)
  {
    var fullPath := files[n].path;
    var isValid := true;
    var verdict := RunRules(files[n], ctx);
    VerdictAt(files, ctx, n);
    ListsStep(files, vs, n);
    if verdict.Crash? {
      return Err(CannotUnpack(fullPath));
    }
    var invalid, valid := invalidFiles, validFiles;
    if verdict.Invalid? {
      invalid := invalid + [(fullPath, verdict.reason)];
      isValid := false;
    }
    if isValid {
      valid := valid + [fullPath];
    }
    return Ok((valid, invalid));
  }

  /** `validate_files` over the files the walk yields, in walk order. */
  method ValidateFiles(files: seq<CsvFile>, ctx: Context) returns (r: Result<Lists, ValidationError>)
    ensures r == ValidateSpec(files, ctx)
  {
    ghost var vs := Verdicts(files, ctx);
    var invalidFiles: seq<(string, string)> := [];
    var validFiles: seq<string> := [];
    var n := 0;
    while n < |files|
      invariant 0 <= n <= |files|
      invariant ListsUpTo(files, vs, n) == Ok((validFiles, invalidFiles))
    {
      var step := ValidateFile(files, vs, ctx, n, validFiles, invalidFiles);
      if step.Err? {
        ListsErrorPersists(files, vs, n + 1, |files|);
        return step;
      }
      validFiles, invalidFiles := step.value.0, step.value.1;
      n := n + 1;
    }
    return Ok((validFiles, invalidFiles));
  }

  /** The paths of the first `n` files whose chain passed, in walk order. */
  function ValidPaths(files: seq<CsvFile>, vs: seq<Verdict>, n: nat): seq<string>
    requires |vs| == |files| && n <= |files|
  {
    if n == 0 then []
    else ValidPaths(files, vs, n - 1) + (if vs[n - 1].Valid? then [files[n - 1].path] else [])
  }

  /** The first `n` files whose chain failed, with the reason, in walk order. */
  function InvalidPairs(files: seq<CsvFile>, vs: seq<Verdict>, n: nat): seq<(string, string)>
    requires |vs| == |files| && n <= |files|
  {
    if n == 0 then []
    else InvalidPairs(files, vs, n - 1) + (if vs[n - 1].Invalid? then [(files[n - 1].path, vs[n - 1].reason)] else [])
  }

  /** Some file among the first `n` makes its chain crash. */
  predicate CrashBefore(vs: seq<Verdict>, n: nat)
    requires n <= |vs|
  {
    exists i :: 0 <= i < n && vs[i].Crash?
  }

  /** `validate_files` raises exactly when some file's content rule returns
      the bare `False`. */
  lemma {:induction false} ValidateCrashes(files: seq<CsvFile>, vs: seq<Verdict>, n: nat)
    requires |vs| == |files| && n <= |files|
    ensures ListsUpTo(files, vs, n).Err? <==> CrashBefore(vs, n)
  {
    if n > 0 {
      ValidateCrashes(files, vs, n - 1);
      if CrashBefore(vs, n) && !vs[n - 1].Crash? {
        var i :| 0 <= i < n && vs[i].Crash?;
        assert i < n - 1;
      }
    }
  }

  /** Without a crash, every file appears exactly once: among the valid
      paths when every rule passed, and among the invalid pairs, with the
      first failing rule's reason, when one failed. */
  lemma {:induction false} ValidateLists(files: seq<CsvFile>, vs: seq<Verdict>, n: nat)
    requires |vs| == |files| && n <= |files|
    requires ListsUpTo(files, vs, n).Ok?
    ensures ListsUpTo(files, vs, n).value == (ValidPaths(files, vs, n), InvalidPairs(files, vs, n))
    ensures |ListsUpTo(files, vs, n).value.0| + |ListsUpTo(files, vs, n).value.1| == n
  {
    if n > 0 {
      var prev := ListsUpTo(files, vs, n - 1);
      assert prev.Ok?;
      ValidateLists(files, vs, n - 1);
      if vs[n - 1].Valid? {
        assert InvalidPairs(files, vs, n - 1) + [] == InvalidPairs(files, vs, n - 1);
      } else {
        assert vs[n - 1].Invalid?;
        assert ValidPaths(files, vs, n - 1) + [] == ValidPaths(files, vs, n - 1);
      }
    }
  }
}
