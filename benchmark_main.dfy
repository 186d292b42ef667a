/**
 * The command line of the `bench_queue` driver (src/benchmark_main.cpp):
 * `parse` fills an `Args` record from argv or ends the process, and `main`
 * picks the queue and reclaimer to benchmark from `--impl`.
 *
 * Process exits are values here: `parse` yields either the arguments or the
 * status it would pass to `std::exit`.  Printing the usage text is left out.
 */
module BenchmarkMain {
  import opened Common

  /** `struct Args` (src/benchmark_main.cpp:22-30). */
  datatype Args = Args(impl: string, producers: int, consumers: int, payloadUs: int,
                       warmupS: int, durationS: int, csv: string)

  /** The member initialisers of `struct Args`. */
  const DEFAULT_ARGS := Args("hp", 4, 4, 100, 2, 5, "")

  /** What `parse` ends with: the filled record, or `std::exit(code)`. */
  datatype ParseResult = Parsed(args: Args) | Exit(code: int)

  // ---------------------------------------------------------------------
  // atoi (ISO C11, section 7.22.1.2, by way of strtol in section 7.22.1.4)
  // ---------------------------------------------------------------------

  /** isspace in the "C" locale. */
  predicate IsCSpace(ch: char)
  {
    ch == ' ' || ch == '\t' || ch == '\n' || ch == '\U{000B}' || ch == '\U{000C}' || ch == '\r'
  }

  function SkipSpaces(s: string): (t: string)
    ensures t == [] || !IsCSpace(t[0])
    decreases |s|
  {
    if s != [] && IsCSpace(s[0]) then SkipSpaces(s[1..]) else s
  }

  /** The longest prefix of decimal digits. */
  function LeadingDigits(s: string): (d: string)
    ensures d <= s && AllDigits(d)
    ensures |d| == |s| || !IsDigit(s[|d|])
    decreases |s|
  {
    if s != [] && IsDigit(s[0]) then [s[0]] + LeadingDigits(s[1..]) else []
  }

  /** atoi: skip white space, take an optional sign and then as many digits as
      follow; no digits gives 0. */
  function Atoi(s: string): (n: int)
    ensures var t := SkipSpaces(s);
      (t == [] || (!IsDigit(t[0]) && ((t[0] != '+' && t[0] != '-') || |t| == 1 || !IsDigit(t[1])))) ==> n == 0
  {
    var t := SkipSpaces(s);
    if t != [] && (t[0] == '+' || t[0] == '-') then
      var v: int := DecimalValue(LeadingDigits(t[1..]));
      if t[0] == '-' then -v else v
    else DecimalValue(LeadingDigits(t))
  }

  /** The digits before a non-digit are exactly what LeadingDigits takes. */
  lemma {:induction false} LeadingDigitsOfDigits(d: string, rest: string)
    requires AllDigits(d) && (rest == [] || !IsDigit(rest[0]))
    ensures LeadingDigits(d + rest) == d
    decreases |d|
  {
    var s := d + rest;
    if d != [] {
      assert s[0] == d[0] && IsDigit(s[0]);
      assert s[1..] == d[1..] + rest;
      LeadingDigitsOfDigits(d[1..], rest);
      assert d == [d[0]] + d[1..];
    } else {
      assert s == rest;
    }
  }

  /** Leading white space is skipped whatever follows it. */
  lemma {:induction false} SkipSpacesPrefix(ws: string, t: string)
    requires forall i :: 0 <= i < |ws| ==> IsCSpace(ws[i])
    ensures SkipSpaces(ws + t) == SkipSpaces(t)
    decreases |ws|
  {
    if ws != [] {
      assert (ws + t)[1..] == ws[1..] + t;
      SkipSpacesPrefix(ws[1..], t);
    } else {
      assert ws + t == t;
    }
  }

  lemma AtoiOfNatural(m: nat, rest: string)
    requires rest == [] || !IsDigit(rest[0])
    ensures Atoi(NatToDecimal(m) + rest) == m
  {
    var d := NatToDecimal(m);
    var s := d + rest;
    assert s[0] == d[0] && IsDigit(s[0]);
    assert SkipSpaces(s) == s;
    LeadingDigitsOfDigits(d, rest);
    DecimalRoundTrip(m);
  }

  lemma AtoiOfNegative(m: nat, rest: string)
    requires rest == [] || !IsDigit(rest[0])
    ensures Atoi("-" + NatToDecimal(m) + rest) == -(m as int)
  {
    var d := NatToDecimal(m);
    var s := "-" + d + rest;
    assert s[0] == '-' && !IsCSpace(s[0]);
    assert SkipSpaces(s) == s;
    assert s[1..] == d + rest;
    LeadingDigitsOfDigits(d, rest);
    DecimalRoundTrip(m);
  }

  /** atoi reads back any number written with %d, whatever non-digit text
      follows it. */
  lemma AtoiOfDecimal(n: int, rest: string)
    requires rest == [] || !IsDigit(rest[0])
    ensures Atoi(IntToDecimal(n) + rest) == n
  {
    if n < 0 {
      AtoiOfNegative(-n, rest);
    } else {
      AtoiOfNatural(n, rest);
    }
  }

  /** ... and after any leading white space. */
  lemma AtoiReadsDecimal(ws: string, n: int, rest: string)
    requires forall i :: 0 <= i < |ws| ==> IsCSpace(ws[i])
    requires rest == [] || !IsDigit(rest[0])
    ensures Atoi(ws + IntToDecimal(n) + rest) == n
  {
    assert ws + IntToDecimal(n) + rest == ws + (IntToDecimal(n) + rest);
    SkipSpacesPrefix(ws, IntToDecimal(n) + rest);
    AtoiOfDecimal(n, rest);
  }

  /** atoi of any text of the form white space, optional sign, digits and a
      non-digit tail: the digits' value, negated after a minus sign.  Leading
      zeros and a plus sign are accepted. */
  lemma AtoiOfDigits(ws: string, sign: string, d: string, rest: string)
    requires forall i :: 0 <= i < |ws| ==> IsCSpace(ws[i])
    requires sign == "" || sign == "+" || sign == "-"
    requires d != [] && AllDigits(d)
    requires rest == [] || !IsDigit(rest[0])
    ensures Atoi(ws + sign + d + rest) == if sign == "-" then -(DecimalValue(d) as int) else DecimalValue(d)
  {
    var t := sign + d + rest;
    assert ws + sign + d + rest == ws + t;
    AtoiAfterSpaces(ws, t);
    AtoiOfSignedDigits(sign, d, rest);
  }

  /** atoi skips any leading white space. */
  lemma AtoiAfterSpaces(ws: string, t: string)
    requires forall i :: 0 <= i < |ws| ==> IsCSpace(ws[i])
    ensures Atoi(ws + t) == Atoi(t)
  {
    SkipSpacesPrefix(ws, t);
  }

  lemma AtoiOfSignedDigits(sign: string, d: string, rest: string)
    requires sign == "" || sign == "+" || sign == "-"
    requires d != [] && AllDigits(d)
    requires rest == [] || !IsDigit(rest[0])
    ensures Atoi(sign + d + rest) == if sign == "-" then -(DecimalValue(d) as int) else DecimalValue(d)
  {
    var s := sign + d + rest;
    if sign == "" {
      assert s == d + rest;
      AtoiOfUnsignedDigits(d, rest);
      assert Atoi(s) == DecimalValue(d);
    } else {
      var c := sign[0];
      assert s == [c] + (d + rest);
      AtoiOfSign(c, d, rest);
      assert Atoi(s) == if c == '-' then -(DecimalValue(d) as int) else DecimalValue(d);
      assert (c == '-') == (sign == "-");
    }
  }

  lemma AtoiOfUnsignedDigits(d: string, rest: string)
    requires d != [] && AllDigits(d)
    requires rest == [] || !IsDigit(rest[0])
    ensures Atoi(d + rest) == DecimalValue(d)
  {
    var t := d + rest;
    assert t[0] == d[0] && IsDigit(t[0]);
    assert SkipSpaces(t) == t;
    LeadingDigitsOfDigits(d, rest);
  }

  lemma AtoiOfSign(c: char, d: string, rest: string)
    requires c == '+' || c == '-'
    requires d != [] && AllDigits(d)
    requires rest == [] || !IsDigit(rest[0])
    ensures Atoi([c] + (d + rest)) == if c == '-' then -(DecimalValue(d) as int) else DecimalValue(d)
  {
    var t := [c] + (d + rest);
    assert !IsCSpace(t[0]);
    assert SkipSpaces(t) == t;
    assert t[1..] == d + rest;
    LeadingDigitsOfDigits(d, rest);
  }

  // ---------------------------------------------------------------------
  // parse(argc, argv)
  // ---------------------------------------------------------------------

  /** The flags that take the next argument as their value. */
  predicate IsValueFlag(k: string)
  {
    k == "--impl" || k == "--producers" || k == "--consumers" || k == "--payload-us"
    || k == "--warmup" || k == "--duration" || k == "--csv"
  }

  predicate IsHelp(k: string)
  {
    k == "--help" || k == "-h"
  }

  /** The assignment one value flag makes (src/benchmark_main.cpp:47-53):
      the flag's own field takes the text, or atoi of it, and no other field
      changes. */
  function SetFlag(a: Args, k: string, v: string): (b: Args)
    requires IsValueFlag(k)
    ensures k == "--impl" ==> b == a.(impl := v)
    ensures k == "--csv" ==> b == a.(csv := v)
    ensures k == "--producers" ==> b == a.(producers := Atoi(v))
    ensures k == "--consumers" ==> b == a.(consumers := Atoi(v))
    ensures k == "--payload-us" ==> b == a.(payloadUs := Atoi(v))
    ensures k == "--warmup" ==> b == a.(warmupS := Atoi(v))
    ensures k == "--duration" ==> b == a.(durationS := Atoi(v))
  {
    if k == "--impl" then a.(impl := v)
    else if k == "--producers" then a.(producers := Atoi(v))
    else if k == "--consumers" then a.(consumers := Atoi(v))
    else if k == "--payload-us" then a.(payloadUs := Atoi(v))
    else if k == "--warmup" then a.(warmupS := Atoi(v))
    else if k == "--duration" then a.(durationS := Atoi(v))
    else a.(csv := v)
  }

  /** The scan of argv from position i with the record so far. */
  function ParseFrom(argv: seq<string>, i: nat, a: Args): ParseResult
    decreases |argv| - i
  {
    if i >= |argv| then Parsed(a)
    else if IsHelp(argv[i]) then Exit(0)
    else if IsValueFlag(argv[i]) then
      if i + 1 >= |argv| then Exit(1)
      else ParseFrom(argv, i + 2, SetFlag(a, argv[i], argv[i + 1]))
    else Exit(1)
  }

  /** parse(argc, argv): argv[0] is the program name and is skipped. */
  function ParseArgs(argv: seq<string>): ParseResult
  {
    ParseFrom(argv, 1, DEFAULT_ARGS)
  }

  /** The loop of `parse` (src/benchmark_main.cpp:41-57): `i` advances once
      per argument and once more for the value `need(i++)` takes. */
  method Parse(argv: seq<string>) returns (r: ParseResult)
    ensures r == ParseArgs(argv)
  {
    var a := DEFAULT_ARGS;
    var i: nat := 1;
    while i < |argv|
      invariant ParseFrom(argv, i, a) == ParseArgs(argv)
      decreases |argv| - i
    {
      var k := argv[i];
      if k == "--help" || k == "-h" {
        return Exit(0);
      } else if IsValueFlag(k) {
        // need(i++): the value must exist
        if i + 1 >= |argv| {
          return Exit(1);
        }
        var v := argv[i + 1];
        if k == "--impl" {
          a := a.(impl := v);
        } else if k == "--producers" {
          a := a.(producers := Atoi(v));
        } else if k == "--consumers" {
          a := a.(consumers := Atoi(v));
        } else if k == "--payload-us" {
          a := a.(payloadUs := Atoi(v));
        } else if k == "--warmup" {
          a := a.(warmupS := Atoi(v));
        } else if k == "--duration" {
          a := a.(durationS := Atoi(v));
        } else {
          a := a.(csv := v);
        }
        i := i + 1;
      } else {
        return Exit(1);
      }
      i := i + 1;
    }
    return Parsed(a);
  }

  /** With no arguments every field keeps its default. */
  lemma NoArgumentsGiveDefaults(prog: string)
    ensures ParseArgs([prog]) == Parsed(Args("hp", 4, 4, 100, 2, 5, ""))
    ensures ParseArgs([]) == Parsed(DEFAULT_ARGS)
  {
  }

  /** A prefix that the scan gets through cleanly leaves the scan exactly at
      its end, so whatever follows is scanned from there with the record the
      prefix built. */
  lemma {:induction false} ParseConcat(p: seq<string>, rest: seq<string>, i: nat, acc: Args)
    requires i <= |p|
    requires ParseFrom(p, i, acc).Parsed?
    ensures ParseFrom(p + rest, i, acc) == ParseFrom(p + rest, |p|, ParseFrom(p, i, acc).args)
    decreases |p| - i
  {
    if i < |p| {
      assert (p + rest)[i] == p[i];
      if IsValueFlag(p[i]) {
        assert (p + rest)[i + 1] == p[i + 1];
        ParseConcat(p, rest, i + 2, SetFlag(acc, p[i], p[i + 1]));
      }
    }
  }

  /** `--help` or `-h`, once reached, ends with status 0: what came before
      was applied, and what comes after is never looked at. */
  lemma HelpStops(p: seq<string>, h: string, rest: seq<string>)
    requires |p| >= 1 && ParseArgs(p).Parsed?
    requires IsHelp(h)
    ensures ParseArgs(p + [h] + rest) == Exit(0)
  {
    ParseConcat(p, [h] + rest, 1, DEFAULT_ARGS);
    assert p + [h] + rest == p + ([h] + rest);
  }

  /** An argument that is neither help nor a known flag, once reached, ends
      with status 1. */
  lemma UnknownArgumentFails(p: seq<string>, k: string, rest: seq<string>)
    requires |p| >= 1 && ParseArgs(p).Parsed?
    requires !IsHelp(k) && !IsValueFlag(k)
    ensures ParseArgs(p + [k] + rest) == Exit(1)
  {
    ParseConcat(p, [k] + rest, 1, DEFAULT_ARGS);
    assert p + [k] + rest == p + ([k] + rest);
  }

  /** A value flag in last position has no value: status 1. */
  lemma MissingValueFails(p: seq<string>, k: string)
    requires |p| >= 1 && ParseArgs(p).Parsed?
    requires IsValueFlag(k)
    ensures ParseArgs(p + [k]) == Exit(1)
  {
    ParseConcat(p, [k], 1, DEFAULT_ARGS);
  }

  /** A value flag takes the next argument, whatever it looks like, and the
      scan resumes after it.  Applied to a later occurrence of the same flag
      this is "the last value wins": SetFlag overwrites the field. */
  lemma ValueFlagConsumesNext(p: seq<string>, k: string, v: string, rest: seq<string>)
    requires |p| >= 1 && ParseArgs(p).Parsed?
    requires IsValueFlag(k)
    ensures ParseArgs(p + [k, v] + rest)
         == ParseFrom(p + [k, v] + rest, |p| + 2, SetFlag(ParseArgs(p).args, k, v))
    ensures ParseArgs(p + [k, v]) == Parsed(SetFlag(ParseArgs(p).args, k, v))
  {
    ParseConcat(p, [k, v] + rest, 1, DEFAULT_ARGS);
    assert p + [k, v] + rest == p + ([k, v] + rest);
    ParseConcat(p, [k, v], 1, DEFAULT_ARGS);
  }

  /** Counts go through atoi with no range check: text without digits gives
      0 and a negative count is kept. */
  lemma CountsAreNotChecked(prog: string)
    ensures ParseArgs([prog, "--producers", "abc"]) == Parsed(DEFAULT_ARGS.(producers := 0))
    ensures ParseArgs([prog, "--consumers", "-3"]) == Parsed(DEFAULT_ARGS.(consumers := -3))
    ensures ParseArgs([prog, "--csv", "--help"]) == Parsed(DEFAULT_ARGS.(csv := "--help"))
  {
    var abc := "abc";
    assert !IsCSpace(abc[0]) && !IsDigit(abc[0]) && abc[0] != '+' && abc[0] != '-';
    assert Atoi(abc) == 0;
    assert ParseArgs([prog, "--producers", abc]) == ParseFrom([prog, "--producers", abc], 3, DEFAULT_ARGS.(producers := 0));
    AtoiOfDecimal(-3, []);
    assert IntToDecimal(-3) + [] == "-3";
    assert ParseArgs([prog, "--consumers", "-3"]) == ParseFrom([prog, "--consumers", "-3"], 3, DEFAULT_ARGS.(consumers := -3));
    assert ParseArgs([prog, "--csv", "--help"]) == ParseFrom([prog, "--csv", "--help"], 3, DEFAULT_ARGS.(csv := "--help"));
  }

  // ---------------------------------------------------------------------
  // main: dispatch on --impl
  // ---------------------------------------------------------------------

  datatype Reclaimer = HazardPointers | EpochBased | NoReclamation

  /** The queue type `run_bench` is instantiated with. */
  datatype QueueKind = LockFree(reclaimer: Reclaimer) | MutexBaseline

  /** How the process ends: `run_bench<Q>(a, implName)` followed by status 0,
      or a plain exit status. */
  datatype MainResult = Ran(queue: QueueKind, implName: string, args: Args) | Status(code: int)

  /** main (src/benchmark_main.cpp:154-173). */
  function Dispatch(argv: seq<string>): (r: MainResult)
    ensures r.Ran? <==> ParseArgs(argv).Parsed? && ParseArgs(argv).args.impl in {"hp", "ebr", "none", "mutex"}
    ensures r.Ran? ==> r.args == ParseArgs(argv).args && r.implName == r.args.impl
    ensures r.Ran? ==> (r.queue == MutexBaseline <==> r.implName == "mutex")
    ensures r.Ran? ==> (r.queue == LockFree(HazardPointers) <==> r.implName == "hp")
    ensures r.Ran? ==> (r.queue == LockFree(EpochBased) <==> r.implName == "ebr")
    ensures r.Ran? ==> (r.queue == LockFree(NoReclamation) <==> r.implName == "none")
    ensures r.Status? ==> r.code == (if ParseArgs(argv).Exit? then ParseArgs(argv).code else 1)
  {
    match ParseArgs(argv)
    case Exit(code) => Status(code)
    case Parsed(a) =>
      if a.impl == "hp" then Ran(LockFree(HazardPointers), "hp", a)
      else if a.impl == "ebr" then Ran(LockFree(EpochBased), "ebr", a)
      else if a.impl == "none" then Ran(LockFree(NoReclamation), "none", a)
      else if a.impl == "mutex" then Ran(MutexBaseline, "mutex", a)
      else Status(1)
  }

  /** The exit status of the process. */
  function ExitStatus(r: MainResult): (code: int)
    ensures r.Ran? ==> code == 0
  {
    if r.Ran? then 0 else r.code
  }
}
