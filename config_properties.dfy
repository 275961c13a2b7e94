/**
 * What `parse_args` promises, stated against an independent description of
 * its outcome: each field is decided by the last argument that carries its
 * flag, and keeps its default when there is none.
 */
module ConfigProperties {

  import opened Wrappers
  import opened CStdlib
  import opened ServerConfig

  /** The text after `flag` in the last argument of `args` that begins with `flag`. */
  function LastValue(args: seq<string>, flag: string): (r: Option<string>)
    ensures r == None <==> forall k :: 0 <= k < |args| ==> !HasPrefix(args[k], flag)
    ensures r.Some? ==> exists k :: 0 <= k < |args| && HasPrefix(args[k], flag) && r.value == args[k][|flag|..]
    decreases |args|
  {
    if args == [] then None
    else
      var last := args[|args| - 1];
      if HasPrefix(last, flag) then Some(last[|flag|..]) else LastValue(args[..|args| - 1], flag)
  }

  /** A present value replaces the current one; an absent one keeps it. */
  function Override<T>(current: Option<T>, latest: Option<T>): Option<T> {
    if latest.Some? then latest else current
  }

  /** The value of the port that the last `--port=` argument (if any) selects. */
  function PortAfter(current: int, latest: Option<string>): int {
    match latest
    case None => current
    case Some(v) => StrtolValue(v)
  }

  /**
   * Folding the arguments over a record sets each field from the last
   * argument with that field's flag, and leaves it as it was when no argument
   * has the flag: each flag affects only its own field, and later occurrences
   * override earlier ones.
   */
  lemma {:induction false} ApplyByField(c: Config, args: seq<string>)
    requires ArgsDefined(args)
    ensures Apply(c, args).port as int == PortAfter(c.port as int, LastValue(args, PortFlag))
    ensures Apply(c, args).telegramUrl == Override(c.telegramUrl, LastValue(args, TelegramUrlFlag))
    ensures Apply(c, args).env == Override(c.env, LastValue(args, EnvFlag))
    decreases |args|
  {
    if args != [] {
      var init, last := args[..|args| - 1], args[|args| - 1];
      assert args == init + [last];
      assert ArgsDefined(init) by {
        forall k | 0 <= k < |init| ensures PortArgDefined(init[k]) {
          assert init[k] == args[k];
        }
      }
      ApplyAppend(c, init, [last]);
      ApplyByField(c, init);
      assert Apply(Apply(c, init), [last]) == Step(Apply(c, init), last);
    }
  }

  /** The configuration `parse_args` produces, field by field. */
  lemma {:induction false} ParseConfigByField(argv: seq<string>)
    requires ArgsDefined(Options(argv))
    ensures ParseConfig(argv).port as int == PortAfter(0, LastValue(Options(argv), PortFlag))
    ensures ParseConfig(argv).telegramUrl == LastValue(Options(argv), TelegramUrlFlag)
    ensures ParseConfig(argv).env == LastValue(Options(argv), EnvFlag)
  {
    ApplyByField(Defaults, Options(argv));
  }

  /** The argument that decides a field is its last one with the flag. */
  lemma {:induction false} LastValueIsLastOccurrence(xs: seq<string>, a: string, ys: seq<string>, flag: string)
    requires HasPrefix(a, flag)
    requires forall k :: 0 <= k < |ys| ==> !HasPrefix(ys[k], flag)
    ensures LastValue(xs + [a] + ys, flag) == Some(a[|flag|..])
    decreases |ys|
  {
    var args := xs + [a] + ys;
    if ys == [] {
      assert args[|args| - 1] == a;
    } else {
      var ys' := ys[..|ys| - 1];
      assert args[|args| - 1] == ys[|ys| - 1];
      assert args[..|args| - 1] == xs + [a] + ys';
      assert forall k :: 0 <= k < |ys'| ==> !HasPrefix(ys'[k], flag) by {
        forall k | 0 <= k < |ys'| ensures !HasPrefix(ys'[k], flag) {
          assert ys'[k] == ys[k];
        }
      }
      LastValueIsLastOccurrence(xs, a, ys', flag);
    }
  }

  /** `argv[0]`, the program name, is never examined. */
  lemma {:induction false} ProgramNameIgnored(argv: seq<string>, name: string)
    requires |argv| > 0
    requires ArgsDefined(Options(argv))
    ensures Options(argv[0 := name]) == Options(argv)
    ensures ParseConfig(argv[0 := name]) == ParseConfig(argv)
  {
  }

  /** When a flag occurs several times, its last occurrence decides the field. */
  lemma {:induction false} LastOccurrenceWins(argv: seq<string>, i: nat)
    requires ArgsDefined(Options(argv))
    requires 1 <= i < |argv|
    requires forall j :: i < j < |argv| ==> Classify(argv[j]) != Classify(argv[i])
    ensures HasPrefix(argv[i], PortFlag) ==> ParseConfig(argv).port as int == StrtolValue(argv[i][7..])
    ensures HasPrefix(argv[i], TelegramUrlFlag) ==> ParseConfig(argv).telegramUrl == Some(argv[i][15..])
    ensures HasPrefix(argv[i], EnvFlag) ==> ParseConfig(argv).env == Some(argv[i][6..])
  {
    var xs, a, ys := argv[1..i], argv[i], argv[i + 1..];
    assert Options(argv) == xs + [a] + ys;
    ParseConfigByField(argv);
    forall flag | flag in {PortFlag, TelegramUrlFlag, EnvFlag} && HasPrefix(a, flag)
      ensures LastValue(Options(argv), flag) == Some(a[|flag|..])
    {
      forall k | 0 <= k < |ys| ensures !HasPrefix(ys[k], flag) {
        assert ys[k] == argv[i + 1 + k];
      }
      LastValueIsLastOccurrence(xs, a, ys, flag);
    }
  }

  /** A field whose flag never occurs keeps its default value. */
  lemma {:induction false} AbsentFlagKeepsDefault(argv: seq<string>)
    requires ArgsDefined(Options(argv))
    ensures (forall k :: 0 <= k < |Options(argv)| ==> !HasPrefix(Options(argv)[k], PortFlag)) ==> ParseConfig(argv).port == 0
    ensures (forall k :: 0 <= k < |Options(argv)| ==> !HasPrefix(Options(argv)[k], TelegramUrlFlag)) ==> ParseConfig(argv).telegramUrl == None
    ensures (forall k :: 0 <= k < |Options(argv)| ==> !HasPrefix(Options(argv)[k], EnvFlag)) ==> ParseConfig(argv).env == None
  {
    ParseConfigByField(argv);
  }

  /** An argument that matches none of the flags changes nothing: dropping it gives the same configuration. */
  lemma {:induction false} UnknownArgumentIgnored(argv: seq<string>, i: nat)
    requires ArgsDefined(Options(argv))
    requires 1 <= i < |argv|
    requires Classify(argv[i]) == Unknown
    ensures ArgsDefined(Options(argv[..i] + argv[i + 1..]))
    ensures ParseConfig(argv[..i] + argv[i + 1..]) == ParseConfig(argv)
  {
    var xs, u, ys := argv[1..i], argv[i], argv[i + 1..];
    assert Options(argv) == xs + [u] + ys;
    assert Options(argv[..i] + argv[i + 1..]) == xs + ys;
    assert ArgsDefined(xs) by {
      forall k | 0 <= k < |xs| ensures PortArgDefined(xs[k]) {
        assert xs[k] == Options(argv)[k];
      }
    }
    assert ArgsDefined(ys) by {
      forall k | 0 <= k < |ys| ensures PortArgDefined(ys[k]) {
        assert ys[k] == Options(argv)[i + k];
      }
    }
    ApplyAppend(Defaults, xs, [u]);
    ApplyAppend(Defaults, xs + [u], ys);
    ApplyAppend(Defaults, xs, ys);
  }

  /** Two arguments that select different branches, or no branch, commute. */
  lemma StepsCommute(c: Config, a: string, b: string)
    requires PortArgDefined(a) && PortArgDefined(b)
    requires Classify(a) != Classify(b) || Classify(a) == Unknown
    ensures Step(Step(c, a), b) == Step(Step(c, b), a)
  {
  }

  /** Swapping two neighbouring arguments for different flags does not change the outcome. */
  lemma {:induction false} SwapIndependentArguments(argv: seq<string>, i: nat)
    requires ArgsDefined(Options(argv))
    requires 1 <= i < |argv| - 1
    requires Classify(argv[i]) != Classify(argv[i + 1]) || Classify(argv[i]) == Unknown
    ensures ArgsDefined(Options(argv[i := argv[i + 1]][i + 1 := argv[i]]))
    ensures ParseConfig(argv[i := argv[i + 1]][i + 1 := argv[i]]) == ParseConfig(argv)
  {
    var swapped := argv[i := argv[i + 1]][i + 1 := argv[i]];
    var xs, a, b, ys := argv[1..i], argv[i], argv[i + 1], argv[i + 2..];
    assert Options(argv) == xs + [a, b] + ys;
    assert Options(swapped) == xs + [b, a] + ys;
    assert ArgsDefined(xs) by {
      forall k | 0 <= k < |xs| ensures PortArgDefined(xs[k]) {
        assert xs[k] == Options(argv)[k];
      }
    }
    assert ArgsDefined(ys) by {
      forall k | 0 <= k < |ys| ensures PortArgDefined(ys[k]) {
        assert ys[k] == Options(argv)[i + 1 + k];
      }
    }
    assert PortArgDefined(a) && PortArgDefined(b) by {
      assert a == Options(argv)[i - 1] && b == Options(argv)[i];
    }
    var mid := Apply(Defaults, xs);
    ApplyAppend(Defaults, xs, [a, b]);
    ApplyAppend(Defaults, xs + [a, b], ys);
    ApplyAppend(Defaults, xs, [b, a]);
    ApplyAppend(Defaults, xs + [b, a], ys);
    assert [a, b][1..] == [b] && [b, a][1..] == [a];
    assert Apply(Step(mid, a), [b]) == Step(Step(mid, a), b);
    assert Apply(Step(mid, b), [a]) == Step(Step(mid, b), a);
    StepsCommute(mid, a, b);
  }

  /**
   * `--port=` followed by optional white space, an optional sign and decimal
   * digits sets the port to the value of that number; what follows the digits
   * is ignored.
   */
  lemma {:induction false} PortArgumentValue(c: Config, ws: string, sign: string, ds: string, rest: string)
    requires AllSpaces(ws)
    requires sign == "" || sign == "+" || sign == "-"
    requires |ds| > 0 && AllDigits(ds)
    requires rest == [] || !IsDigit(rest[0])
    requires InInt32Range(Signed(sign, DigitsValue(ds)))
    ensures PortArgDefined(PortFlag + ws + sign + ds + rest)
    ensures Step(c, PortFlag + ws + sign + ds + rest) == c.(port := Signed(sign, DigitsValue(ds)) as int32)
  {
    var v := ws + sign + ds + rest;
    assert PortFlag + ws + sign + ds + rest == PortFlag + v;
    assert (PortFlag + v)[..7] == PortFlag && (PortFlag + v)[7..] == v;
    StrtolOfNumeral(ws, sign, ds, rest);
  }

  /** A `--port=` value without leading digits, such as "" or "abc", sets the port to 0. */
  lemma {:induction false} PortWithoutDigits(c: Config, ws: string, sign: string, rest: string)
    requires AllSpaces(ws)
    requires sign == "" || sign == "+" || sign == "-"
    requires rest == [] || !IsDigit(rest[0])
    requires sign == "" && rest != [] ==> !IsSpace(rest[0]) && !IsSign(rest[0])
    ensures PortArgDefined(PortFlag + ws + sign + rest)
    ensures Step(c, PortFlag + ws + sign + rest) == c.(port := 0)
  {
    var v := ws + sign + rest;
    assert PortFlag + ws + sign + rest == PortFlag + v;
    assert (PortFlag + v)[..7] == PortFlag && (PortFlag + v)[7..] == v;
    StrtolWithoutDigits(ws, sign, rest);
  }

  /** Passing back the port as `main` prints it (`%d`) reproduces the port. */
  lemma PortRoundTrip(prog: string, n: int32)
    ensures ArgsDefined(Options([prog, PortFlag + Decimal(n as int)]))
    ensures ParseConfig([prog, PortFlag + Decimal(n as int)]) == Config(n, None, None)
  {
  }

  /**
   * An empty value such as `--env=` makes the field present with the empty
   * string rather than absent, so `main` shows an empty string and not
   * "Not provided".
   */
  lemma {:induction false} EmptyValueIsPresent(argv: seq<string>, i: nat)
    requires ArgsDefined(Options(argv))
    requires 1 <= i < |argv|
    requires argv[i] == EnvFlag || argv[i] == TelegramUrlFlag
    requires forall j :: i < j < |argv| ==> Classify(argv[j]) != Classify(argv[i])
    ensures argv[i] == EnvFlag ==> ParseConfig(argv).env == Some("") && Shown(ParseConfig(argv).env) == ""
    ensures argv[i] == TelegramUrlFlag ==> ParseConfig(argv).telegramUrl == Some("") && Shown(ParseConfig(argv).telegramUrl) == ""
  {
    assert HasPrefix(argv[i], argv[i]);
    assert EnvFlag[6..] == "" && TelegramUrlFlag[15..] == "";
    LastOccurrenceWins(argv, i);
  }
}
