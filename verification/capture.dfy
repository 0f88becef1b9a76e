/** The `capture` command's option handling and device selection
    (Capture.swift). The process-wide static state becomes an immutable
    `Options` value, and each `exit(code)` becomes a result variant. */
module Capture {
  import opened Optional
  import opened Text
  import CamSnapper
  import GitInfo

  /** Message used in test mode when none was given. */
  const TestDefaultMessage: string := "this is a test message i didnt really commit something"

  /** The capture command's state: the static `Options` together with the
      warm-up delay the `--warmup` option writes. */
  datatype Options = Options(
    testMode: bool,
    parsedMessage: Option<string>,
    parsedSha: Option<string>,
    gitMessage: Option<string>,
    gitSha: Option<string>,
    requestedDeviceID: Option<string>,
    delay: real)

  /** The state before any option is processed. */
  const InitialOptions: Options := Options(false, None, None, None, None, None, 0.75)

  /** The caption drawn across the bottom: a message from the command line
      first, then the test message in test mode, then the commit's subject. */
  function FinalMessage(o: Options): (r: Option<string>)
    ensures o.parsedMessage.Some? ==> r == o.parsedMessage
    ensures o.parsedMessage.None? && o.testMode ==> r == Some(TestDefaultMessage)
    ensures o.parsedMessage.None? && !o.testMode ==> r == o.gitMessage
  {
    if o.parsedMessage.Some? then o.parsedMessage
    else if o.testMode then Some(TestDefaultMessage)
    else o.gitMessage
  }

  /** The hash drawn at the top, by the same precedence; the random test hash
      is a parameter. */
  function FinalSha(o: Options, testDefaultSha: string): (r: Option<string>)
    ensures o.parsedSha.Some? ==> r == o.parsedSha
    ensures o.parsedSha.None? && o.testMode ==> r == Some(testDefaultSha)
    ensures o.parsedSha.None? && !o.testMode ==> r == o.gitSha
  {
    if o.parsedSha.Some? then o.parsedSha
    else if o.testMode then Some(testDefaultSha)
    else o.gitSha
  }

  /** Both captions are the first present value of the chain parsed, test
      default (only in test mode), repository. */
  lemma CaptionsArePrecedenceChains(o: Options, testDefaultSha: string)
    ensures FinalMessage(o) ==
      FirstSome([o.parsedMessage, if o.testMode then Some(TestDefaultMessage) else None, o.gitMessage])
    ensures FinalSha(o, testDefaultSha) ==
      FirstSome([o.parsedSha, if o.testMode then Some(testDefaultSha) else None, o.gitSha])
  {
    ChainOfThree(o.parsedMessage, if o.testMode then Some(TestDefaultMessage) else None, o.gitMessage);
    ChainOfThree(o.parsedSha, if o.testMode then Some(testDefaultSha) else None, o.gitSha);
  }

  lemma ChainOfThree<T>(a: Option<T>, b: Option<T>, c: Option<T>)
    ensures FirstSome([a, b, c]) == if a.Some? then a else if b.Some? then b else c
  {
    assert [c][1..] == [];
    assert FirstSome([c]) == c;
    assert [b, c][1..] == [c];
    assert FirstSome([b, c]) == if b.Some? then b else c;
    assert [a, b, c][1..] == [b, c];
  }

  /** Records the last commit's hash and subject, when there is one. */
  function WithGitInfo(o: Options, info: Option<GitInfo.CommitInfo>): (r: Options)
    ensures info.Some? ==> r.gitSha == Some(info.value.sha) && r.gitMessage == Some(info.value.msg)
    ensures info.None? ==> r == o
    ensures r.(gitSha := o.gitSha, gitMessage := o.gitMessage) == o
  {
    match info
    case Some(ci) => o.(gitSha := Some(ci.sha), gitMessage := Some(ci.msg))
    case None => o
  }

  /** A dashed argument split at `=`: the text before the first `=`, and the
      text between the first and the second `=`, if there is a first. */
  function SplitArg(arg: string): (r: (string, Option<string>))
    ensures '=' !in r.0
    ensures r.1.None? <==> '=' !in arg
    ensures r.1.None? ==> r.0 == arg
    ensures r.1.Some? ==> '=' !in r.1.value
    ensures r.1.Some? ==> (|r.0| + 1 + |r.1.value| <= |arg|
      && arg[..|r.0| + 1 + |r.1.value|] == r.0 + "=" + r.1.value
      && (|arg| == |r.0| + 1 + |r.1.value| || arg[|r.0| + 1 + |r.1.value|] == '='))
  {
    var parts := Split(arg, '=');
    JoinSplit(arg, '=');
    if |parts| == 1 then
      (parts[0], None)
    else
      JoinCons("=", parts[0], parts[1..]);
      assert '=' !in parts[1] && '=' !in parts[0];
      if |parts| == 2 then
        assert parts[1..] == [parts[1]];
        (parts[0], Some(parts[1]))
      else
        JoinCons("=", parts[1], parts[2..]);
        assert parts[1..] == [parts[1]] + parts[2..];
        assert arg == parts[0] + "=" + parts[1] + "=" + Join("=", parts[2..]);
        (parts[0], Some(parts[1]))
  }

  /** Why option processing stopped the process. */
  datatype Termination = ShowUsage | ListDevices | UnknownOption(arg: string)

  /** Either the state to continue with, or `exit(code)`. */
  datatype OptsOutcome = Proceed(options: Options) | Terminate(code: int, reason: Termination)

  /** The labels of the option switch; every other key is `Unknown`. */
  datatype Flag = Help | List | Device | Test | Msg | Sha | Warmup | Debug | Unknown

  function FlagOf(key: string): Flag {
    if key == "-h" || key == "--help" then Help
    else if key == "-l" || key == "--list" then List
    else if key == "--device" then Device
    else if key == "-t" || key == "--test" then Test
    else if key == "--msg" then Msg
    else if key == "--sha" then Sha
    else if key == "--warmup" then Warmup
    else if key == "--debug" then Debug
    else Unknown
  }

  /** The flag an argument's key selects. */
  function ArgFlag(arg: string): Flag {
    FlagOf(SplitArg(arg).0)
  }

  /** Flags that update the state and let processing continue. */
  predicate IsSetting(f: Flag) {
    !f.Help? && !f.List? && !f.Unknown?
  }

  /** One dashed argument: help and listing exit with 0, an unknown key exits
      with 1; the rest update the state. Number parsing is a parameter. */
  function ApplyOption(o: Options, arg: string, parseNumber: string -> Option<real>): (r: OptsOutcome)
    ensures r.Proceed? <==> IsSetting(ArgFlag(arg))
    ensures ArgFlag(arg) == Help ==> r == Terminate(0, ShowUsage)
    ensures ArgFlag(arg) == List ==> r == Terminate(0, ListDevices)
    ensures ArgFlag(arg) == Unknown ==> r == Terminate(1, UnknownOption(arg))
    ensures ArgFlag(arg) == Device ==> r == Proceed(o.(requestedDeviceID := SplitArg(arg).1))
    ensures ArgFlag(arg) == Test ==> r == Proceed(o.(testMode := true))
    ensures ArgFlag(arg) == Msg ==> r == Proceed(o.(parsedMessage := SplitArg(arg).1))
    ensures ArgFlag(arg) == Sha ==> r == Proceed(o.(parsedSha := SplitArg(arg).1))
    ensures ArgFlag(arg) == Warmup ==> r.Proceed? && r.options.(delay := o.delay) == o
    ensures ArgFlag(arg) == Warmup && SplitArg(arg).1.Some? && parseNumber(SplitArg(arg).1.value).Some? ==>
      r.options.delay == parseNumber(SplitArg(arg).1.value).value
    ensures ArgFlag(arg) == Warmup && (SplitArg(arg).1.None? || parseNumber(SplitArg(arg).1.value).None?) ==>
      r.options == o
    ensures ArgFlag(arg) == Debug ==> r == Proceed(o)
  {
    var value := SplitArg(arg).1;
    match ArgFlag(arg)
    case Help => Terminate(0, ShowUsage)
    case List => Terminate(0, ListDevices)
    case Device => Proceed(o.(requestedDeviceID := value))
    case Test => Proceed(o.(testMode := true))
    case Msg => Proceed(o.(parsedMessage := value))
    case Sha => Proceed(o.(parsedSha := value))
    case Warmup =>
      (match value
       case Some(text) =>
         (match parseNumber(text)
          case Some(n) => Proceed(o.(delay := n))
          case None => Proceed(o))
       case None => Proceed(o))
    case Debug => Proceed(o)
    case Unknown => Terminate(1, UnknownOption(arg))
  }

  /** All dashed arguments in order, stopping at the first that exits. */
  function ProcessOpts(o: Options, args: seq<string>, parseNumber: string -> Option<real>): (r: OptsOutcome)
    ensures r.Proceed? <==> forall i :: 0 <= i < |args| ==> IsSetting(ArgFlag(args[i]))
    ensures r.Terminate? ==> r.code in {0, 1}
    ensures |args| == 1 ==> r == ApplyOption(o, args[0], parseNumber)
    decreases |args|
  {
    if |args| == 0 then Proceed(o)
    else
      match ApplyOption(o, args[0], parseNumber)
      case Proceed(o') =>
        var r := ProcessOpts(o', args[1..], parseNumber);
        assert forall i :: 1 <= i < |args| ==> args[i] == args[1..][i - 1];
        r
      case t => t
  }

  /** Processing a concatenation is processing the first part, then the second
      part from the state it left, unless the first part exited. */
  lemma {:induction false} ProcessOptsAppend(o: Options, a: seq<string>, b: seq<string>, parseNumber: string -> Option<real>)
    ensures ProcessOpts(o, a + b, parseNumber) ==
      match ProcessOpts(o, a, parseNumber)
      case Proceed(o') => ProcessOpts(o', b, parseNumber)
      case t => t
    decreases |a|
  {
    if |a| == 0 {
      assert a + b == b;
    } else {
      assert (a + b)[0] == a[0];
      assert (a + b)[1..] == a[1..] + b;
      match ApplyOption(o, a[0], parseNumber)
      case Proceed(o') =>
        ProcessOptsAppend(o', a[1..], b, parseNumber);
      case Terminate(_, _) =>
    }
  }

  /** Nothing after an exiting argument is looked at. */
  lemma OptionsAfterExitIgnored(o: Options, a: seq<string>, b: seq<string>, parseNumber: string -> Option<real>)
    requires ProcessOpts(o, a, parseNumber).Terminate?
    ensures ProcessOpts(o, a + b, parseNumber) == ProcessOpts(o, a, parseNumber)
  {
    ProcessOptsAppend(o, a, b, parseNumber);
  }

  /** One more argument at the end is applied to the state the others left. */
  lemma ProcessOptsSnoc(o: Options, a: seq<string>, x: string, parseNumber: string -> Option<real>)
    ensures ProcessOpts(o, a + [x], parseNumber) ==
      match ProcessOpts(o, a, parseNumber)
      case Proceed(o') => ApplyOption(o', x, parseNumber)
      case t => t
  {
    ProcessOptsAppend(o, a, [x], parseNumber);
  }

  /** An exiting argument exits the same way whatever the state. */
  lemma ExitIgnoresState(o1: Options, o2: Options, arg: string, parseNumber: string -> Option<real>)
    requires !IsSetting(ArgFlag(arg))
    ensures ApplyOption(o1, arg, parseNumber).Terminate?
    ensures ApplyOption(o1, arg, parseNumber) == ApplyOption(o2, arg, parseNumber)
  {
  }

  /** Processing exits exactly as the first argument without a known
      non-exiting key does; what it exits with does not depend on the state. */
  lemma ExitIsFirstUnknown(o: Options, args: seq<string>, k: nat, parseNumber: string -> Option<real>)
    requires k < |args| && !IsSetting(ArgFlag(args[k]))
    requires forall i :: 0 <= i < k ==> IsSetting(ArgFlag(args[i]))
    ensures ProcessOpts(o, args, parseNumber) == ApplyOption(o, args[k], parseNumber)
  {
    var pre := args[..k];
    var post := args[k..];
    assert forall i :: 0 <= i < |pre| ==> pre[i] == args[i];
    assert args == pre + post;
    ProcessOptsAppend(o, pre, post, parseNumber);
    assert ProcessOpts(o, pre, parseNumber).Proceed?;
    var o' := ProcessOpts(o, pre, parseNumber).options;
    ExitIgnoresState(o', o, args[k], parseNumber);
    assert post[0] == args[k];
    assert ProcessOpts(o', post, parseNumber) == ApplyOption(o', args[k], parseNumber);
  }

  /** The index of the last argument satisfying `p`, if any. */
  function LastWhere(args: seq<string>, p: string -> bool): (r: Option<nat>)
    ensures r.None? <==> forall i :: 0 <= i < |args| ==> !p(args[i])
    ensures r.Some? ==> r.value < |args| && p(args[r.value])
    ensures r.Some? ==> forall j :: r.value < j < |args| ==> !p(args[j])
  {
    if |args| == 0 then None
    else if p(args[|args| - 1]) then Some(|args| - 1)
    else
      var r := LastWhere(args[..|args| - 1], p);
      assert forall i :: 0 <= i < |args| - 1 ==> args[..|args| - 1][i] == args[i];
      r
  }

  lemma LastWhereSnoc(a: seq<string>, x: string, p: string -> bool)
    ensures LastWhere(a + [x], p) == if p(x) then Some(|a|) else LastWhere(a, p)
  {
    assert (a + [x])[..|a|] == a;
  }

  /** The argument has the given key. */
  function KeyIs(f: Flag): string -> bool {
    arg => ArgFlag(arg) == f
  }

  /** The argument is a `--warmup` whose value parses as a number. */
  function SetsDelay(parseNumber: string -> Option<real>): string -> bool {
    arg => ArgFlag(arg) == Warmup && SplitArg(arg).1.Some? && parseNumber(SplitArg(arg).1.value).Some?
  }

  /** The value a string option ends with: that of its last occurrence, or the
      value it started with. */
  function LastValue(args: seq<string>, f: Flag, otherwise: Option<string>): Option<string> {
    match LastWhere(args, KeyIs(f))
    case Some(i) => SplitArg(args[i]).1
    case None => otherwise
  }

  lemma LastValueSnoc(a: seq<string>, x: string, f: Flag, otherwise: Option<string>)
    ensures LastValue(a + [x], f, otherwise) ==
      if ArgFlag(x) == f then SplitArg(x).1 else LastValue(a, f, otherwise)
  {
    LastWhereSnoc(a, x, KeyIs(f));
    var i := LastWhere(a, KeyIs(f));
    if i.Some? {
      assert (a + [x])[i.value] == a[i.value];
    }
  }

  /** The delay processing ends with: the last parseable `--warmup`, or the
      delay it started with. */
  function LastDelay(args: seq<string>, parseNumber: string -> Option<real>, otherwise: real): real {
    match LastWhere(args, SetsDelay(parseNumber))
    case Some(i) => parseNumber(SplitArg(args[i]).1.value).value
    case None => otherwise
  }

  lemma LastDelaySnoc(a: seq<string>, x: string, parseNumber: string -> Option<real>, otherwise: real)
    ensures LastDelay(a + [x], parseNumber, otherwise) ==
      if SetsDelay(parseNumber)(x) then parseNumber(SplitArg(x).1.value).value else LastDelay(a, parseNumber, otherwise)
  {
    LastWhereSnoc(a, x, SetsDelay(parseNumber));
    var i := LastWhere(a, SetsDelay(parseNumber));
    if i.Some? {
      assert (a + [x])[i.value] == a[i.value];
    }
  }

  /** Test mode is on iff it was on or some argument turns it on. */
  predicate TestRequested(o: Options, args: seq<string>) {
    o.testMode || exists i :: 0 <= i < |args| && ArgFlag(args[i]) == Test
  }

  lemma TestRequestedSnoc(o: Options, a: seq<string>, x: string)
    ensures TestRequested(o, a + [x]) <==> TestRequested(o, a) || ArgFlag(x) == Test
  {
    if ArgFlag(x) == Test {
      assert (a + [x])[|a|] == x;
    }
    if TestRequested(o, a) && !o.testMode {
      var i :| 0 <= i < |a| && ArgFlag(a[i]) == Test;
      assert (a + [x])[i] == a[i];
    }
    if TestRequested(o, a + [x]) && !o.testMode {
      var i :| 0 <= i < |a + [x]| && ArgFlag((a + [x])[i]) == Test;
      if i < |a| {
        assert (a + [x])[i] == a[i];
      }
    }
  }

  /** A non-exiting argument's effect on each field. */
  lemma ApplyOptionFields(o: Options, x: string, parseNumber: string -> Option<real>)
    requires IsSetting(ArgFlag(x))
    ensures ApplyOption(o, x, parseNumber).Proceed?
    ensures ApplyOption(o, x, parseNumber).options.parsedMessage ==
      if ArgFlag(x) == Msg then SplitArg(x).1 else o.parsedMessage
    ensures ApplyOption(o, x, parseNumber).options.parsedSha ==
      if ArgFlag(x) == Sha then SplitArg(x).1 else o.parsedSha
    ensures ApplyOption(o, x, parseNumber).options.requestedDeviceID ==
      if ArgFlag(x) == Device then SplitArg(x).1 else o.requestedDeviceID
    ensures ApplyOption(o, x, parseNumber).options.testMode <==> o.testMode || ArgFlag(x) == Test
    ensures ApplyOption(o, x, parseNumber).options.delay ==
      if SetsDelay(parseNumber)(x) then parseNumber(SplitArg(x).1.value).value else o.delay
    ensures ApplyOption(o, x, parseNumber).options.gitMessage == o.gitMessage
    ensures ApplyOption(o, x, parseNumber).options.gitSha == o.gitSha
  {
  }

  /** `o2` is the state the arguments lead to from `o`, described in terms
      of the arguments: each string option holds the value of its last
      occurrence, test mode is on iff it was on or some argument turns it on,
      the delay is the last parseable warm-up, and the git fields are
      untouched. */
  predicate Reached(o: Options, args: seq<string>, parseNumber: string -> Option<real>, o2: Options) {
    && o2.parsedMessage == LastValue(args, Msg, o.parsedMessage)
    && o2.parsedSha == LastValue(args, Sha, o.parsedSha)
    && o2.requestedDeviceID == LastValue(args, Device, o.requestedDeviceID)
    && (o2.testMode <==> TestRequested(o, args))
    && o2.delay == LastDelay(args, parseNumber, o.delay)
    && o2.gitMessage == o.gitMessage
    && o2.gitSha == o.gitSha
  }

  /** One more non-exiting argument extends the description. */
  lemma ReachedSnoc(o: Options, a: seq<string>, x: string, parseNumber: string -> Option<real>, o1: Options)
    requires Reached(o, a, parseNumber, o1) && IsSetting(ArgFlag(x))
    ensures Reached(o, a + [x], parseNumber, ApplyOption(o1, x, parseNumber).options)
  {
    ApplyOptionFields(o1, x, parseNumber);
    LastValueSnoc(a, x, Msg, o.parsedMessage);
    LastValueSnoc(a, x, Sha, o.parsedSha);
    LastValueSnoc(a, x, Device, o.requestedDeviceID);
    LastDelaySnoc(a, x, parseNumber, o.delay);
    TestRequestedSnoc(o, a, x);
  }

  /** No arguments describe the starting state. */
  lemma ReachedEmpty(o: Options, args: seq<string>, parseNumber: string -> Option<real>)
    requires |args| == 0
    ensures Reached(o, args, parseNumber, o)
  {
    assert LastWhere(args, KeyIs(Msg)).None?;
    assert LastWhere(args, KeyIs(Sha)).None?;
    assert LastWhere(args, KeyIs(Device)).None?;
    assert LastWhere(args, SetsDelay(parseNumber)).None?;
  }

  /** A run without an exit consists of a shorter run without an exit and one
      more non-exiting step. */
  lemma ProceedSnoc(o: Options, a: seq<string>, x: string, parseNumber: string -> Option<real>)
    requires ProcessOpts(o, a + [x], parseNumber).Proceed?
    ensures ProcessOpts(o, a, parseNumber).Proceed? && IsSetting(ArgFlag(x))
    ensures ProcessOpts(o, a + [x], parseNumber).options ==
      ApplyOption(ProcessOpts(o, a, parseNumber).options, x, parseNumber).options
  {
    ProcessOptsSnoc(o, a, x, parseNumber);
    assert (a + [x])[|a|] == x;
  }

  lemma LastSplit(args: seq<string>)
    requires |args| > 0
    ensures args == args[..|args| - 1] + [args[|args| - 1]]
  {
  }

  /** The state after processing without an exit is the one the arguments
      describe. */
  lemma {:induction false} ProcessedOptions(o: Options, args: seq<string>, parseNumber: string -> Option<real>)
    requires ProcessOpts(o, args, parseNumber).Proceed?
    ensures Reached(o, args, parseNumber, ProcessOpts(o, args, parseNumber).options)
    decreases |args|
  {
    if |args| == 0 {
      ReachedEmpty(o, args, parseNumber);
    } else {
      var a := args[..|args| - 1];
      var x := args[|args| - 1];
      LastSplit(args);
      ProceedSnoc(o, a, x, parseNumber);
      ProcessedOptions(o, a, parseNumber);
      ReachedSnoc(o, a, x, parseNumber, ProcessOpts(o, a, parseNumber).options);
    }
  }

  /** From the initial state, an argument list that names no parseable
      warm-up keeps the default delay, one without test flags leaves test
      mode off, and no git information is present yet. */
  lemma InitialDefaultsKept(args: seq<string>, parseNumber: string -> Option<real>)
    requires ProcessOpts(InitialOptions, args, parseNumber).Proceed?
    ensures (forall i :: 0 <= i < |args| ==> !SetsDelay(parseNumber)(args[i])) ==>
      ProcessOpts(InitialOptions, args, parseNumber).options.delay == 0.75
    ensures (forall i :: 0 <= i < |args| ==> ArgFlag(args[i]) != Test) ==>
      !ProcessOpts(InitialOptions, args, parseNumber).options.testMode
    ensures ProcessOpts(InitialOptions, args, parseNumber).options.gitMessage.None?
  {
    ProcessedOptions(InitialOptions, args, parseNumber);
    ReachedFromInitial(args, parseNumber, ProcessOpts(InitialOptions, args, parseNumber).options);
  }

  lemma ReachedFromInitial(args: seq<string>, parseNumber: string -> Option<real>, o2: Options)
    requires Reached(InitialOptions, args, parseNumber, o2)
    ensures (forall i :: 0 <= i < |args| ==> !SetsDelay(parseNumber)(args[i])) ==> o2.delay == 0.75
    ensures (forall i :: 0 <= i < |args| ==> ArgFlag(args[i]) != Test) ==> !o2.testMode
    ensures o2.gitMessage.None?
  {
  }

  /** The outcome of choosing the capture device. */
  datatype Selection = Chosen(device: CamSnapper.Device) | Ambiguous(candidates: seq<CamSnapper.Device>) | NotFound {

    /** The process exit code of a failed selection. */
    function ExitCode(): (code: int)
      requires !Chosen?
      ensures code == 1 <==> Ambiguous?
      ensures code == 13 <==> NotFound?
    {
      if Ambiguous? then 1 else 13
    }
  }

  /** The device to capture with: the one device matching the requested id,
      or the platform's preferred device when none was requested. A request
      that matches nothing does not fall back to the preferred device. */
  function DeviceSelect(
    requested: Option<string>, platform: seq<CamSnapper.Device>,
    preferred: Option<CamSnapper.Device>, lower: string -> string): (r: Selection)
    ensures requested.None? ==> r == (if preferred.Some? then Chosen(preferred.value) else NotFound)
    ensures requested.Some? ==>
      (r.NotFound? <==> forall d :: d in platform ==> !CamSnapper.MatchesQuery(d, requested.value, lower))
    ensures requested.Some? && r.Chosen? ==>
      r.device in platform && CamSnapper.MatchesQuery(r.device, requested.value, lower)
      && forall d :: d in platform && CamSnapper.MatchesQuery(d, requested.value, lower) ==> d == r.device
    ensures requested.Some? && r.Ambiguous? ==>
      |r.candidates| >= 2 && forall d :: d in r.candidates <==> d in platform && CamSnapper.MatchesQuery(d, requested.value, lower)
    ensures requested.Some? && r.Ambiguous? ==>
      r.candidates == CamSnapper.Select(platform, d => CamSnapper.MatchesQuery(d, requested.value, lower))
    ensures requested.Some? && r.Chosen? ==>
      CamSnapper.Select(platform, d => CamSnapper.MatchesQuery(d, requested.value, lower)) == [r.device]
  {
    match requested
    case Some(req) =>
      CamSnapper.MatchesAreFilter(platform, req, lower);
      (match CamSnapper.DevicesMatchingString(platform, req, lower)
       case Some(matches) =>
         if |matches| == 1 then
           assert matches[0] in matches;
           assert forall d :: d in matches ==> d == matches[0];
           Chosen(matches[0])
         else Ambiguous(matches)
       case None => NotFound)
    case None =>
      if preferred.Some? then Chosen(preferred.value) else NotFound
  }

  /** A request that exactly one enumerated device matches selects it. */
  lemma UniqueMatchIsChosen(platform: seq<CamSnapper.Device>, preferred: Option<CamSnapper.Device>,
                            lower: string -> string, req: string, i: int)
    requires 0 <= i < |platform| && CamSnapper.MatchesQuery(platform[i], req, lower)
    requires forall j :: 0 <= j < |platform| && j != i ==> !CamSnapper.MatchesQuery(platform[j], req, lower)
    ensures DeviceSelect(Some(req), platform, preferred, lower) == Chosen(platform[i])
  {
    var p := d => CamSnapper.MatchesQuery(d, req, lower);
    CamSnapper.MatchesAreFilter(platform, req, lower);
    assert platform == platform[..i] + [platform[i]] + platform[i + 1..];
    CamSnapper.SelectAppend(platform[..i] + [platform[i]], platform[i + 1..], p);
    CamSnapper.SelectAppend(platform[..i], [platform[i]], p);
    NoneSelected(platform[..i], p);
    NoneSelected(platform[i + 1..], p);
  }

  lemma NoneSelected(ds: seq<CamSnapper.Device>, p: CamSnapper.Device -> bool)
    requires forall j :: 0 <= j < |ds| ==> !p(ds[j])
    ensures CamSnapper.Select(ds, p) == []
  {
  }
}
