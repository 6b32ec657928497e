/**
 * The command-line parser of the dynamic front end: `getSuffix`, the two
 * name lists `supportedAlg` / `supportedDataStruc`, and `parse`, which
 * walks the options `-f -b -w -d -s -n -a -t -h`, fills in `cmd_args`, and
 * then checks that the run is complete and consistent.
 *
 * `getopt` is taken as having already split the command line into
 * (option, argument) pairs plus a count of the positional arguments left
 * over; a call of `exit(status)` is the outcome `Exit(status)`.
 */
module Parser {
  import opened Types
  import N = Numerals

  /** The position of the last `c` in `s`, if any (`std::string::rfind`). */
  function LastIndexOf(s: string, c: char): (r: Option<nat>)
    ensures r.Some? ==> r.value < |s| && s[r.value] == c && c !in s[r.value + 1..]
    ensures r.None? ==> c !in s
  {
    if |s| == 0 then None
    else if s[|s| - 1] == c then Some(|s| - 1)
    else
      var r := LastIndexOf(s[..|s| - 1], c);
      assert r.Some? ==> s[r.value + 1..] == s[..|s| - 1][r.value + 1..] + [s[|s| - 1]];
      assert r.None? ==> s == s[..|s| - 1] + [s[|s| - 1]];
      r
  }

  /**
   * `getSuffix(filename)`: the text from the last '.' on; a name without a
   * '.' makes the program exit.
   */
  function GetSuffix(filename: string): (r: Option<string>)
    ensures r.Some? <==> '.' in filename
    ensures r.Some? ==> && 0 < |r.value| <= |filename| && r.value[0] == '.' && '.' !in r.value[1..]
                        && filename == filename[..|filename| - |r.value|] + r.value
  {
    match LastIndexOf(filename, '.')
    case None => None
    case Some(i) =>
      assert filename[i..][1..] == filename[i + 1..];
      assert filename == filename[..i] + filename[i..];
      Some(filename[i..])
  }

  /** The 13 algorithm names `supportedAlg` knows. */
  const Algorithms: seq<string> :=
    ["traverse",
     "prfromscratch", "prdyn",
     "ccfromscratch", "ccdyn",
     "mcfromscratch", "mcdyn",
     "ssspfromscratch", "ssspdyn",
     "bfsfromscratch", "bfsdyn",
     "sswpfromscratch", "sswpdyn"]

  predicate SupportedAlg(alg: string): (b: bool)
    ensures alg == Defaults.algorithm ==> b
    ensures alg in WeightedAlgorithms ==> b
  {
    alg in Algorithms
  }

  /** The five container names `supportedDataStruc` knows. */
  predicate SupportedDataStruc(kind: string): (b: bool)
    ensures kind == Defaults.kind ==> b
    ensures b ==> '.' !in kind
  {
    kind == "adList" || kind == "adListShared" || kind == "degAwareRHH" || kind == "stinger" || kind == "adListChunked"
  }

  /** The algorithms `parse` refuses to run on an unweighted graph. */
  const WeightedAlgorithms: seq<string> := ["ssspdyn", "ssspfromscratch", "sswpdyn", "sswpfromscratch"]

  /** `cmd_args`; `flags` records which of `-f` (8), `-b` (4), `-w` (2) and `-d` (1) were given. */
  datatype CmdArgs = CmdArgs(batchSize: int, directed: bool, weighted: bool, numNodes: int,
                             filename: string, kind: string, algorithm: string, flags: bv8,
                             numThreads: int)

  /** `flags |= bit`. */
  function SetBit(flags: bv8, bit: bv8): bv8
  {
    flags | bit
  }

  /** The member initialisers of `cmd_args`. */
  const Defaults: CmdArgs := CmdArgs(0, false, false, 0, "", "adList", "traverse", 0, 16)

  /** One option as `getopt` returns it, with its argument (empty for `-h`). */
  datatype Opt = Opt(name: char, arg: string)

  /** Either the parsed arguments or the status the program exits with. */
  datatype Outcome = Parsed(args: CmdArgs) | Exit(status: int)

  /**
   * One case of the option switch, with `number` standing for
   * `atoi(optarg)`.  An option `getopt` does not know comes back as '?',
   * which no case matches: it is ignored.
   */
  function OptionStep(a: CmdArgs, o: Opt, number: int): Outcome
  {
    match o.name
    case 'f' =>
      if GetSuffix(o.arg) != Some(".csv") then Exit(-1)
      else Parsed(a.(flags := SetBit(a.flags, 8), filename := o.arg))
    case 'b' => Parsed(a.(flags := SetBit(a.flags, 4), batchSize := number))
    case 'w' =>
      if number == 1 then Parsed(a.(flags := SetBit(a.flags, 2), weighted := true))
      else if number == 0 then Parsed(a.(flags := SetBit(a.flags, 2), weighted := false))
      else Exit(-1)
    case 'd' =>
      if number == 1 then Parsed(a.(flags := SetBit(a.flags, 1), directed := true))
      else if number == 0 then Parsed(a.(flags := SetBit(a.flags, 1), directed := false))
      else Exit(-1)
    case 's' => if SupportedDataStruc(o.arg) then Parsed(a.(kind := o.arg)) else Exit(-1)
    case 'n' => Parsed(a.(numNodes := number))
    case 't' => Parsed(a.(numThreads := number))
    case 'a' => if SupportedAlg(o.arg) then Parsed(a.(algorithm := o.arg)) else Exit(-1)
    case 'h' => Exit(0)
    case _ => Parsed(a)
  }

  /** One case of the option switch, reading numbers with `atoi`. */
  function ApplyOption(a: CmdArgs, o: Opt): (r: Outcome)
    ensures o.name == 'h' ==> r == Exit(0)
    ensures r.Exit? && o.name != 'h' ==> r.status == -1
    ensures r.Parsed? && Consistent(a) ==> Consistent(r.args)
  {
    var number := N.Atoi(o.arg);
    StepExits(a, o, number);
    if OptionStep(a, o, number).Parsed? && Consistent(a) then
      StepConsistent(a, o, number);
      OptionStep(a, o, number)
    else
      OptionStep(a, o, number)
  }

  /** The option loop: the options in order, up to the first that exits. */
  function ApplyAll(a: CmdArgs, opts: seq<Opt>): Outcome
  {
    if |opts| == 0 then Parsed(a)
    else match ApplyAll(a, opts[..|opts| - 1])
      case Exit(status) => Exit(status)
      case Parsed(b) => ApplyOption(b, opts[|opts| - 1])
  }

  /**
   * The checks after the loop: every required flag (a missing one exits
   * with 0), no positional argument left (exit 0), a node count (exit -1),
   * and a weighted graph for the shortest- and widest-path algorithms
   * (exit -1).
   */
  function Validate(a: CmdArgs, extra: nat): (r: Outcome)
    ensures r.Parsed? ==> r.args == a && extra == 0 && a.numNodes != 0
    ensures r.Exit? ==> r.status == 0 || r.status == -1
    ensures r.Exit? && r.status == 0 <==> (a.flags & 15) != 15 || extra > 0
  {
    if (a.flags & 1) == 0 || (a.flags & 2) == 0 || (a.flags & 4) == 0 || (a.flags & 8) == 0 then Exit(0)
    else if extra > 0 then Exit(0)
    else if a.numNodes == 0 then Exit(-1)
    else if !a.weighted && a.algorithm in WeightedAlgorithms then Exit(-1)
    else Parsed(a)
  }

  /** What `parse` does with the options and the left-over positional arguments. */
  function ParseOutcome(opts: seq<Opt>, extra: nat): Outcome
  {
    match ApplyAll(Defaults, opts)
    case Exit(status) => Exit(status)
    case Parsed(a) => Validate(a, extra)
  }

  /** Once an option exits, the options after it are never looked at. */
  lemma {:induction false} ExitSticks(a: CmdArgs, opts: seq<Opt>, k: nat)
    requires k <= |opts| && ApplyAll(a, opts[..k]).Exit?
    ensures ApplyAll(a, opts) == ApplyAll(a, opts[..k])
    decreases |opts| - k
  {
    if k < |opts| {
      assert opts[..k + 1][..k] == opts[..k];
      ExitSticks(a, opts, k + 1);
    } else {
      assert opts[..k] == opts;
    }
  }

  /** `parse(argc, argv)`: the option loop, then the checks after it. */
  method Parse(opts: seq<Opt>, extra: nat) returns (r: Outcome)
    ensures r == ParseOutcome(opts, extra)
  {
    var args := Defaults;
    var i := 0;
    while i < |opts|
      invariant i <= |opts| && ApplyAll(Defaults, opts[..i]) == Parsed(args)
    {
      var o := opts[i];
      assert opts[..i + 1][..i] == opts[..i];
      var step := Switch(args, o, N.Atoi(o.arg));
      if step.Exit? {
        ExitSticks(Defaults, opts, i + 1);
        return step;
      }
      args := step.args;
      i := i + 1;
    }
    assert opts[..i] == opts;
    var quit := false;
    if (args.flags & 1) == 0 { quit := true; }
    if (args.flags & 2) == 0 { quit := true; }
    if (args.flags & 4) == 0 { quit := true; }
    if (args.flags & 8) == 0 { quit := true; }
    if quit {
      return Exit(0);
    }
    if extra > 0 {
      return Exit(0);
    }
    if args.numNodes == 0 {
      return Exit(-1);
    }
    var requiresWeighted := args.algorithm in WeightedAlgorithms;
    if !args.weighted && requiresWeighted {
      return Exit(-1);
    }
    return Parsed(args);
  }

  /** One pass through the option switch of `parse`, with `number` the value of `atoi(optarg)`. */
  method Switch(a: CmdArgs, o: Opt, number: int) returns (r: Outcome)
    ensures r == OptionStep(a, o, number)
  {
    var args := a;
    match o.name {
      case 'f' =>
        if GetSuffix(o.arg) != Some(".csv") {
          return Exit(-1);
        }
        args := args.(flags := SetBit(args.flags, 8));
        args := args.(filename := o.arg);
      case 'b' =>
        args := args.(flags := SetBit(args.flags, 4));
        args := args.(batchSize := number);
      case 'w' =>
        args := args.(flags := SetBit(args.flags, 2));
        if number == 1 {
          args := args.(weighted := true);
        } else if number == 0 {
          args := args.(weighted := false);
        } else {
          return Exit(-1);
        }
      case 'd' =>
        args := args.(flags := SetBit(args.flags, 1));
        if number == 1 {
          args := args.(directed := true);
        } else if number == 0 {
          args := args.(directed := false);
        } else {
          return Exit(-1);
        }
      case 's' =>
        args := args.(kind := o.arg);
        if !SupportedDataStruc(args.kind) {
          return Exit(-1);
        }
      case 'n' =>
        args := args.(numNodes := number);
      case 't' =>
        args := args.(numThreads := number);
      case 'a' =>
        args := args.(algorithm := o.arg);
        if !SupportedAlg(args.algorithm) {
          return Exit(-1);
        }
      case 'h' =>
        return Exit(0);
      case _ =>
    }
    return Parsed(args);
  }

  // ---------------------------------------------------------------------
  // What a successful parse guarantees
  // ---------------------------------------------------------------------

  /** The options that set a flag bit. */
  predicate IsFlag(c: char) { c == 'f' || c == 'b' || c == 'w' || c == 'd' }

  /** The flag bit an option sets, 0 for the others. */
  function FlagOf(c: char): bv8
  {
    if c == 'f' then 8 else if c == 'b' then 4 else if c == 'w' then 2 else if c == 'd' then 1 else 0
  }

  /** The arguments the loop can reach: known names, a ".csv" file once `-f` was given, only the four flag bits. */
  predicate Consistent(a: CmdArgs)
  {
    && SupportedDataStruc(a.kind) && SupportedAlg(a.algorithm)
    && ((a.flags & 8) != 0 ==> GetSuffix(a.filename) == Some(".csv"))
    && (a.flags & 0xF0) == 0
  }

  /** Whether an option named `c` is among `opts`. */
  predicate Seen(opts: seq<Opt>, c: char)
  {
    |opts| > 0 && (Seen(opts[..|opts| - 1], c) || opts[|opts| - 1].name == c)
  }

  lemma {:induction false} SeenMeans(opts: seq<Opt>, c: char)
    ensures Seen(opts, c) <==> exists i :: 0 <= i < |opts| && opts[i].name == c
  {
    if |opts| > 0 {
      var init := opts[..|opts| - 1];
      SeenMeans(init, c);
      if exists i :: 0 <= i < |opts| && opts[i].name == c {
        var i :| 0 <= i < |opts| && opts[i].name == c;
        if i < |init| { assert init[i].name == c; }
      }
      if exists i :: 0 <= i < |init| && init[i].name == c {
        var i :| 0 <= i < |init| && init[i].name == c;
        assert opts[i].name == c;
      }
    }
  }

  /** Setting one flag bit leaves the other bits as they were and the high bits clear. */
  lemma SetFlag(x: bv8, f: bv8, g: bv8)
    requires f == 1 || f == 2 || f == 4 || f == 8
    requires g == 1 || g == 2 || g == 4 || g == 8
    ensures (SetBit(x, f) & g) != 0 <==> (x & g) != 0 || f == g
    ensures (x & 0xF0) == 0 ==> (SetBit(x, f) & 0xF0) == 0
  {
  }

  /** What one option can change: its own field, after the check the switch makes, and its own flag bit. */
  lemma StepFields(b: CmdArgs, o: Opt, number: int)
    requires OptionStep(b, o, number).Parsed?
    ensures var a := OptionStep(b, o, number).args;
            && (a.kind == b.kind || (o.name == 's' && a.kind == o.arg && SupportedDataStruc(o.arg)))
            && (a.algorithm == b.algorithm || (o.name == 'a' && a.algorithm == o.arg && SupportedAlg(o.arg)))
            && (a.filename == b.filename || (o.name == 'f' && a.filename == o.arg && GetSuffix(o.arg) == Some(".csv")))
            && (a.flags == b.flags || (IsFlag(o.name) && a.flags == SetBit(b.flags, FlagOf(o.name))))
            && (o.name == 'f' ==> a.filename == o.arg && GetSuffix(o.arg) == Some(".csv"))
  {
  }

  /** Only `-h` exits with status 0; every other exit is a rejected argument, status -1. */
  lemma StepExits(b: CmdArgs, o: Opt, number: int)
    ensures o.name == 'h' ==> OptionStep(b, o, number) == Exit(0)
    ensures OptionStep(b, o, number).Exit? && o.name != 'h' ==> OptionStep(b, o, number).status == -1
  {
  }

  /** One option keeps the arguments consistent. */
  lemma StepConsistent(b: CmdArgs, o: Opt, number: int)
    requires Consistent(b) && OptionStep(b, o, number).Parsed?
    ensures Consistent(OptionStep(b, o, number).args)
  {
    var a := OptionStep(b, o, number).args;
    StepFields(b, o, number);
    if IsFlag(o.name) {
      SetFlag(b.flags, FlagOf(o.name), 8);
    }
  }

  /** One option sets exactly its own flag bit, if any. */
  lemma StepFlag(b: CmdArgs, o: Opt, number: int, c: char)
    requires OptionStep(b, o, number).Parsed? && IsFlag(c)
    ensures (OptionStep(b, o, number).args.flags & FlagOf(c)) != 0 <==> (b.flags & FlagOf(c)) != 0 || o.name == c
  {
    if IsFlag(o.name) {
      SetFlag(b.flags, FlagOf(o.name), FlagOf(c));
    }
  }

  /** Every option keeps the arguments consistent, and a flag bit is set exactly when its option was seen. */
  lemma {:induction false} ApplyAllMeaning(opts: seq<Opt>, c: char)
    requires IsFlag(c)
    ensures ApplyAll(Defaults, opts).Parsed? ==>
              var a := ApplyAll(Defaults, opts).args;
              Consistent(a) && ((a.flags & FlagOf(c)) != 0 <==> Seen(opts, c))
  {
    if |opts| > 0 {
      var init := opts[..|opts| - 1];
      ApplyAllMeaning(init, c);
      if ApplyAll(Defaults, opts).Parsed? {
        var o := opts[|opts| - 1];
        StepConsistent(ApplyAll(Defaults, init).args, o, N.Atoi(o.arg));
        StepFlag(ApplyAll(Defaults, init).args, o, N.Atoi(o.arg), c);
      }
    }
  }

  /**
   * `parse` returns exactly when the options are complete and consistent:
   * all of `-f`, `-b`, `-w`, `-d` were given, no positional argument is
   * left, the node count is not 0, and an algorithm that needs weights runs
   * on a weighted graph; the file then ends in ".csv" and the container and
   * algorithm names are supported.
   */
  lemma ParseAccepts(opts: seq<Opt>, extra: nat)
    ensures ParseOutcome(opts, extra).Parsed? <==>
              && ApplyAll(Defaults, opts).Parsed?
              && Seen(opts, 'f') && Seen(opts, 'b') && Seen(opts, 'w') && Seen(opts, 'd')
              && extra == 0
              && ApplyAll(Defaults, opts).args.numNodes != 0
              && (ApplyAll(Defaults, opts).args.algorithm in WeightedAlgorithms ==> ApplyAll(Defaults, opts).args.weighted)
    ensures ParseOutcome(opts, extra).Parsed? ==>
              var a := ParseOutcome(opts, extra).args;
              && GetSuffix(a.filename) == Some(".csv")
              && SupportedDataStruc(a.kind) && SupportedAlg(a.algorithm)
              && a.flags == 15
  {
    var r := ApplyAll(Defaults, opts);
    if r.Parsed? {
      ApplyAllMeaning(opts, 'f');
      ApplyAllMeaning(opts, 'b');
      ApplyAllMeaning(opts, 'w');
      ApplyAllMeaning(opts, 'd');
      ValidateMeaning(r.args, extra);
    }
  }

  /** The checks after the loop pass exactly when all four flags are set and the rest holds, and then change nothing. */
  lemma ValidateMeaning(a: CmdArgs, extra: nat)
    requires Consistent(a)
    ensures Validate(a, extra).Parsed? <==>
              && (a.flags & 8) != 0 && (a.flags & 4) != 0 && (a.flags & 2) != 0 && (a.flags & 1) != 0
              && extra == 0 && a.numNodes != 0 && (a.algorithm in WeightedAlgorithms ==> a.weighted)
    ensures Validate(a, extra).Parsed? ==> Validate(a, extra).args == a && a.flags == 15
  {
    if (a.flags & 1) != 0 && (a.flags & 2) != 0 && (a.flags & 4) != 0 && (a.flags & 8) != 0 {
      AllFlags(a.flags);
    }
  }

  /** The four flag bits set and no other: `flags == 15`. */
  lemma AllFlags(x: bv8)
    requires (x & 0xF0) == 0
    requires (x & 1) != 0 && (x & 2) != 0 && (x & 4) != 0 && (x & 8) != 0
    ensures x == 15
  {
  }

  /** `-w` and `-d` take 0 or 1 and nothing else; `-h` always exits with 0. */
  lemma SwitchArguments(a: CmdArgs, s: string, number: int)
    ensures OptionStep(a, Opt('w', s), number).Parsed? <==> number == 0 || number == 1
    ensures OptionStep(a, Opt('w', s), number).Parsed? ==> OptionStep(a, Opt('w', s), number).args.weighted == (number == 1)
    ensures OptionStep(a, Opt('d', s), number).Parsed? <==> number == 0 || number == 1
    ensures OptionStep(a, Opt('d', s), number).Parsed? ==> OptionStep(a, Opt('d', s), number).args.directed == (number == 1)
    ensures OptionStep(a, Opt('h', s), number) == Exit(0)
  {
  }

  /** A file name is accepted by `-f` exactly when its last '.' starts ".csv" at the very end. */
  lemma CsvSuffix(name: string)
    ensures GetSuffix(name) == Some(".csv") <==> |name| >= 4 && name[|name| - 4..] == ".csv"
  {
    if |name| >= 4 && name[|name| - 4..] == ".csv" {
      var i := |name| - 4;
      assert name[i] == '.';
      assert name[i + 1..] == "csv";
      assert LastIndexOf(name, '.') == Some(i);
    }
  }
}
