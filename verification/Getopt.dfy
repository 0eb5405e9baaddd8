/** getopt: scanning short options, with operands moved behind the options. */
module Getopt {
  import opened Options
  import opened Exchange

  /** What one call reports: the character returned, the option argument, and the character put into optopt. */
  datatype Event = Event(code: char, optarg: Option<string>, optopt: Option<char>)

  datatype Reply = Done | Got(event: Event)

  /** What a whole argument vector means: the events, the elements that belong to options, and the operands. */
  datatype Parse = Parse(events: seq<Event>, opts: seq<string>, operands: seq<string>)

  /** Either does not start with '-', or is just "-". */
  predicate IsOperand(s: string) {
    |s| == 0 || s[0] != '-' || |s| == 1
  }

  datatype Kind = Unknown | Plain | OptionalArgument | RequiredArgument

  /** The first place of `c` at or behind `i`, or the length. */
  function StrChr(os: string, c: char, i: nat): (r: nat)
    requires i <= |os|
    ensures i <= r <= |os| && (r < |os| ==> os[r] == c) && c !in os[i..r]
    decreases |os| - i
  {
    if i == |os| then i else if os[i] == c then i else StrChr(os, c, i + 1)
  }

  /** What the option string says about a character: colons behind it announce an argument. */
  function KindOf(os: string, c: char): Kind {
    var k := StrChr(os, c, 0);
    if k == |os| || c == ':' then Unknown
    else if k + 1 < |os| && os[k + 1] == ':' then
      if k + 2 < |os| && os[k + 2] == ':' then OptionalArgument else RequiredArgument
    else Plain
  }

  /** Reported when a required argument is missing. */
  function MissingCode(os: string): char {
    if |os| > 0 && os[0] == ':' then ':' else '?'
  }

  /** Puts an event in front, and moves the first `n` elements to the options. */
  function Emit(e: Event, taken: seq<string>, rest: Parse): Parse {
    Parse([e] + rest.events, taken + rest.opts, rest.operands)
  }

  /**
   * The meaning of the arguments from left to right. `s` holds the characters of args[0] still to be looked at;
   * when it is empty a new element is looked at. Without `permute` the first operand ends the options.
   */
  function Meaning(os: string, permute: bool, s: string, args: seq<string>): Parse
    requires s != "" ==> args != []
    decreases |args|, if s == "" then 1 else 0, |s|
  {
    if s == "" then
      if args == [] then Parse([], [], [])
      else if args[0] == "--" then Parse([], ["--"], args[1..])
      else if IsOperand(args[0]) then
        if permute then
          var rest := Meaning(os, permute, "", args[1..]);
          rest.(operands := [args[0]] + rest.operands)
        else Parse([], [], args)
      else Meaning(os, permute, args[0][1..], args)
    else
      var c, tail := s[0], s[1..];
      match KindOf(os, c)
      case Unknown =>
        var e := Event('?', None, Some(c));
        if tail == "" then Emit(e, [args[0]], Meaning(os, permute, "", args[1..]))
            else Emit(e, [], Meaning(os, permute, tail, args))
      case Plain =>
        var e := Event(c, None, None);
        if tail == "" then Emit(e, [args[0]], Meaning(os, permute, "", args[1..]))
            else Emit(e, [], Meaning(os, permute, tail, args))
      case OptionalArgument =>
        Emit(Event(c, if tail == "" then None else Some(tail), None), [args[0]], Meaning(os, permute, "", args[1..]))
      case RequiredArgument =>
        if tail != "" then Emit(Event(c, Some(tail), None), [args[0]], Meaning(os, permute, "", args[1..]))
        else if |args| == 1 then Emit(Event(MissingCode(os), None, Some(c)), [args[0]],
                                      Meaning(os, permute, "", args[1..]))
        else Emit(Event(c, Some(args[1]), None), [args[0], args[1]], Meaning(os, permute, "", args[2..]))
  }

  /** `all` is `a` and `b` shuffled together, each in its own order. */
  ghost predicate Shuffle<T(!new)>(all: seq<T>, a: seq<T>, b: seq<T>)
    decreases |all|
  {
    if all == [] then a == [] && b == []
    else
      || (a != [] && a[0] == all[0] && Shuffle(all[1..], a[1..], b))
      || (b != [] && b[0] == all[0] && Shuffle(all[1..], a, b[1..]))
  }

  lemma ShuffleLeft<T(!new)>(x: T, all: seq<T>, a: seq<T>, b: seq<T>)
    requires Shuffle(all, a, b)
    ensures Shuffle([x] + all, [x] + a, b)
  {
    assert ([x] + all)[1..] == all && ([x] + a)[1..] == a;
  }

  lemma ShuffleRight<T(!new)>(x: T, all: seq<T>, a: seq<T>, b: seq<T>)
    requires Shuffle(all, a, b)
    ensures Shuffle([x] + all, a, [x] + b)
  {
    assert ([x] + all)[1..] == all && ([x] + b)[1..] == b;
  }

  lemma {:induction false} ShuffleAllRight<T(!new)>(all: seq<T>)
    ensures Shuffle(all, [], all)
  {
    if all != [] {
      ShuffleAllRight(all[1..]);
    }
  }

  /** No argument is lost, invented or reordered: options and operands each keep their order. */
  lemma {:induction false} MeaningShuffles(os: string, permute: bool, s: string, args: seq<string>)
    requires s != "" ==> args != []
    ensures var m := Meaning(os, permute, s, args); Shuffle(args, m.opts, m.operands)
    decreases |args|, if s == "" then 2 else 1
  {
    if args != [] {
      assert args == [args[0]] + args[1..];
    }
    if s == "" {
      if args == [] {
      } else if args[0] == "--" {
        ShuffleAllRight(args[1..]);
        ShuffleLeft(args[0], args[1..], [], args[1..]);
      } else if IsOperand(args[0]) {
        ShuffleAllRight(args);
        if permute {
          MeaningShuffles(os, permute, "", args[1..]);
          var m := Meaning(os, permute, "", args[1..]);
          ShuffleRight(args[0], args[1..], m.opts, m.operands);
        }
      } else {
        MeaningShuffles(os, permute, args[0][1..], args);
      }
    } else {
      ClusterShuffles(os, permute, s, args);
    }
  }

  lemma {:induction false} ClusterShuffles(os: string, permute: bool, s: string, args: seq<string>)
    requires s != "" && args != []
    ensures var m := Meaning(os, permute, s, args); Shuffle(args, m.opts, m.operands)
    decreases |args|, 0, |s|
  {
    var kind, tail := KindOf(os, s[0]), s[1..];
    assert args == [args[0]] + args[1..];
    if tail != "" && (kind.Unknown? || kind.Plain?) {
      ClusterShuffles(os, permute, tail, args);
      var m := Meaning(os, permute, tail, args);
      assert [] + m.opts == m.opts;
    } else if kind.RequiredArgument? && tail == "" && |args| > 1 {
      MeaningShuffles(os, permute, "", args[2..]);
      var m := Meaning(os, permute, "", args[2..]);
      assert args[1..] == [args[1]] + args[2..];
      ShuffleLeft(args[1], args[2..], m.opts, m.operands);
      ShuffleLeft(args[0], args[1..], [args[1]] + m.opts, m.operands);
      assert [args[0]] + ([args[1]] + m.opts) == [args[0], args[1]] + m.opts;
    } else {
      MeaningShuffles(os, permute, "", args[1..]);
      var m := Meaning(os, permute, "", args[1..]);
      ShuffleLeft(args[0], args[1..], m.opts, m.operands);
    }
  }

  // ----- The scan in progress -----

  /** Everything reported and passed by so far, in front of what is still to come. */
  function Joined(events: seq<Event>, opts: seq<string>, operands: seq<string>, rest: Parse): Parse {
    Parse(events + rest.events, opts + rest.opts, operands + rest.operands)
  }

  /**
   * Between two calls: a[1..first] and a[last..optind] are the options passed by, a[first..last] the operands
   * skipped, and the elements from optind on are untouched; together they still mean what the whole vector means.
   */
  ghost predicate Progress(os: string, permute: bool, orig: seq<string>, a: seq<string>, first: nat, last: nat,
                           optind: nat,
                           s: string, events: seq<Event>)
  {
    && |a| == |orig| && 1 <= first <= last <= optind <= |a| && a[0] == orig[0]
    && (s != "" ==> optind < |a|) && (!permute ==> first == last)
    && Meaning(os, permute, "", orig[1..]) ==
       Joined(events, a[1..first] + a[last..optind], a[first..last], Meaning(os, permute, s, a[optind..]))
  }

  lemma Start(os: string, permute: bool, orig: seq<string>)
    requires |orig| >= 1
    ensures Progress(os, permute, orig, orig, 1, 1, 1, "", [])
  {
  }

  /** Moving the operands behind the options passed by since. */
  lemma AfterExchange(os: string, permute: bool, orig: seq<string>, a: seq<string>, first: nat, last: nat,
                      optind: nat, events: seq<Event>)
    requires Progress(os, permute, orig, a, first, last, optind, "", events) && permute
    ensures Progress(os, permute, orig, Rotated(a, first, last, optind), first + (optind - last), optind, optind, "",
                     events)
  {
    hide Meaning;
    var r := Rotated(a, first, last, optind);
    assert r[1..first + (optind - last)] == a[1..first] + a[last..optind];
    assert r[first + (optind - last)..optind] == a[first..last];
    assert r[optind..] == a[optind..];
    assert a[1..first] + a[last..optind] + r[optind..optind] == a[1..first] + a[last..optind];
  }

  lemma NoOperandsYet(os: string, permute: bool, orig: seq<string>, a: seq<string>, first: nat, optind: nat,
                      s: string, events: seq<Event>)
    requires Progress(os, permute, orig, a, first, first, optind, s, events)
    ensures Progress(os, permute, orig, a, optind, optind, optind, s, events)
  {
    hide Meaning;
    assert a[1..first] + a[first..optind] == a[1..optind] + a[optind..optind];
    assert a[first..first] == a[optind..optind];
  }

  lemma SkipOperand(os: string, orig: seq<string>, a: seq<string>, first: nat, optind: nat, events: seq<Event>)
    requires Progress(os, true, orig, a, first, optind, optind, "", events) && optind < |a| && IsOperand(a[optind])
    ensures Progress(os, true, orig, a, first, optind + 1, optind + 1, "", events)
  {
    var rest := Meaning(os, true, "", a[optind + 1..]);
    assert a[optind..][1..] == a[optind + 1..];
    assert a[first..optind] + ([a[optind]] + rest.operands) == a[first..optind + 1] + rest.operands;
  }

  lemma OpenElement(os: string, permute: bool, orig: seq<string>, a: seq<string>, first: nat, last: nat, optind: nat,
                    events: seq<Event>)
    requires Progress(os, permute, orig, a, first, last, optind, "", events)
    requires optind < |a| && !IsOperand(a[optind]) && a[optind] != "--"
    ensures Progress(os, permute, orig, a, first, last, optind, a[optind][1..], events)
  {
  }

  /** The meaning of an event that uses up `n` elements and leaves the characters `s`. */
  function After(os: string, permute: bool, a: seq<string>, at: nat, e: Event, n: nat, s: string): Parse
    requires at + n <= |a| && (s != "" ==> at + n < |a|)
  {
    Emit(e, a[at..at + n], Meaning(os, permute, s, a[at + n..]))
  }

  /** Reporting an event and passing by the `n` elements it used up. */
  lemma Report(os: string, permute: bool, orig: seq<string>, a: seq<string>, first: nat, last: nat, optind: nat,
               s: string, events: seq<Event>, e: Event, n: nat, s': string)
    requires Progress(os, permute, orig, a, first, last, optind, s, events)
    requires optind + n <= |a| && (s' != "" ==> optind + n < |a|)
    requires Meaning(os, permute, s, a[optind..]) == After(os, permute, a, optind, e, n, s')
    ensures Progress(os, permute, orig, a, first, last, optind + n, s', events + [e])
  {
    hide Meaning;
    var rest := Meaning(os, permute, s', a[optind + n..]);
    assert events + ([e] + rest.events) == (events + [e]) + rest.events;
    assert a[last..optind] + a[optind..optind + n] == a[last..optind + n];
    assert (a[1..first] + a[last..optind]) + (a[optind..optind + n] + rest.opts)
           == (a[1..first] + a[last..optind + n]) + rest.opts;
  }

  /** What the caller finds when getopt has returned -1. */
  ghost predicate Finished(os: string, permute: bool, orig: seq<string>, a: seq<string>, optind: nat,
                           events: seq<Event>)
    requires |orig| >= 1
  {
    var m := Meaning(os, permute, "", orig[1..]);
    events == m.events && a == [orig[0]] + m.opts + m.operands && optind == 1 + |m.opts|
  }

  lemma AllSeen(os: string, permute: bool, orig: seq<string>, a: seq<string>, first: nat, events: seq<Event>)
    requires Progress(os, permute, orig, a, first, |a|, |a|, "", events)
    ensures Finished(os, permute, orig, a, first, events)
  {
    assert a == [a[0]] + a[1..first] + a[first..];
    assert a[|a|..|a|] == [];
  }

  /** The "--" element counts as an option; everything behind it is an operand. */
  lemma DashDash(os: string, permute: bool, orig: seq<string>, a: seq<string>, first: nat, last: nat, optind: nat,
                 events: seq<Event>)
    requires Progress(os, permute, orig, a, first, last, optind, "", events) && optind < |a| && a[optind] == "--"
    ensures Finished(os, permute, orig, Rotated(a, first, last, optind + 1), first + (optind + 1 - last), events)
  {
    DashDashMeaning(os, permute, a, optind);
    hide Meaning;
    DashDashMoved(a, first, last, optind);
  }

  lemma DashDashMeaning(os: string, permute: bool, a: seq<string>, optind: nat)
    requires optind < |a| && a[optind] == "--"
    ensures Meaning(os, permute, "", a[optind..]) == Parse([], ["--"], a[optind + 1..])
  {
    assert a[optind..][1..] == a[optind + 1..];
  }

  lemma DashDashMoved(a: seq<string>, first: nat, last: nat, optind: nat)
    requires 1 <= first <= last <= optind < |a| && a[optind] == "--"
    ensures Rotated(a, first, last, optind + 1) == [a[0]] + (a[1..first] + a[last..optind] + ["--"])
            + (a[first..last] + a[optind + 1..])
    ensures |a[1..first] + a[last..optind] + ["--"]| == first + (optind - last)
  {
    assert a[last..optind] + ["--"] == a[last..optind + 1];
    assert a[..first] == [a[0]] + a[1..first];
  }

  lemma StopAtOperand(os: string, orig: seq<string>, a: seq<string>, first: nat, last: nat, optind: nat,
                      events: seq<Event>)
    requires Progress(os, false, orig, a, first, last, optind, "", events) && optind < |a| && IsOperand(a[optind])
    ensures Finished(os, false, orig, a, optind, events)
  {
    assert Meaning(os, false, "", a[optind..]) == Parse([], [], a[optind..]);
    hide Meaning;
    NoOperandsYet(os, false, orig, a, first, optind, "", events);
    assert a[..optind] == [a[0]] + a[1..optind];
  }

  class GetoptData {
    const argv: array<string>
    const optstring: string
    const permute: bool
    var optind: nat
    var firstNonopt: nat
    var lastNonopt: nat
    var nextchar: string

    /** The argument vector before the first call, and what has been reported since. */
    ghost const orig: seq<string>
    ghost var events: seq<Event>

    ghost predicate Valid()
      reads this, argv
    {
      argv.Length > 0 ==> Progress(optstring, permute, orig, argv[..], firstNonopt, lastNonopt, optind, nextchar,
                                   events)
    }

    /** Before the first call. `posixlyCorrect` asks for the scan to stop at the first operand. */
    constructor (argv: array<string>, optstring: string, posixlyCorrect: bool)
      ensures Valid() && this.argv == argv && this.optstring == optstring && permute == !posixlyCorrect
      ensures orig == argv[..] && events == [] && optind == 1
    {
      this.argv, this.optstring, permute := argv, optstring, !posixlyCorrect;
      optind, firstNonopt, lastNonopt, nextchar := 1, 1, 1, "";
      orig, events := argv[..], [];
      new;
      if argv.Length > 0 {
        Start(optstring, permute, orig);
      }
    }

    method Exchange()
      requires firstNonopt <= lastNonopt <= optind <= argv.Length
      modifies this`firstNonopt, this`lastNonopt, argv
      ensures argv[..] == Rotated(old(argv[..]), old(firstNonopt), old(lastNonopt), optind)
      ensures firstNonopt == old(firstNonopt) + (optind - old(lastNonopt)) && lastNonopt == optind
    {
      ExchangeSegments(argv, firstNonopt, lastNonopt, optind);
      firstNonopt := firstNonopt + (optind - lastNonopt);
      lastNonopt := optind;
    }

    /** Passes by operands, after moving the earlier ones behind the options seen since. */
    method SkipOperands()
      requires argv.Length > 0 && Valid() && nextchar == "" && permute
      modifies this`optind, this`firstNonopt, this`lastNonopt, argv
      ensures Valid() && lastNonopt == optind && optind <= argv.Length
              && (optind < argv.Length ==> !IsOperand(argv[optind]))
    {
      hide Progress, Rotated;
      ProgressBounds(optstring, permute, orig, argv[..], firstNonopt, lastNonopt, optind, nextchar, events);
      if firstNonopt != lastNonopt && lastNonopt != optind {
        AfterExchange(optstring, permute, orig, argv[..], firstNonopt, lastNonopt, optind, events);
        Exchange();
      } else if lastNonopt != optind {
        NoOperandsYet(optstring, permute, orig, argv[..], firstNonopt, optind, nextchar, events);
        firstNonopt := optind;
      }
      while optind < argv.Length && IsOperand(argv[optind])
        invariant optind <= argv.Length
        invariant Progress(optstring, permute, orig, argv[..], firstNonopt, optind, optind, nextchar, events)
      {
        SkipOperand(optstring, orig, argv[..], firstNonopt, optind, events);
        optind := optind + 1;
      }
      lastNonopt := optind;
    }

    /** Passes by "--", and takes everything behind it for operands. */
    method EndOfOptions()
      requires argv.Length > 0 && Valid() && nextchar == "" && optind < argv.Length && argv[optind] == "--"
      modifies this`optind, this`firstNonopt, this`lastNonopt, argv
      ensures optind == argv.Length && firstNonopt <= argv.Length && lastNonopt == argv.Length
      ensures Finished(optstring, permute, orig, argv[..], firstNonopt, events)
    {
      hide Progress, Finished;
      ProgressBounds(optstring, permute, orig, argv[..], firstNonopt, lastNonopt, optind, nextchar, events);
      DashDash(optstring, permute, orig, argv[..], firstNonopt, lastNonopt, optind, events);
      optind := optind + 1;
      if firstNonopt != lastNonopt && lastNonopt != optind {
        Exchange();
      } else if firstNonopt == lastNonopt {
        NothingToRotate(argv[..], firstNonopt, lastNonopt, optind);
        firstNonopt := optind;
      }
      lastNonopt := argv.Length;
      optind := argv.Length;
    }

    /** Advances to the next element that holds options; false when there is none. */
    method NextElement() returns (more: bool)
      requires argv.Length > 0 && Valid() && nextchar == ""
      modifies this`optind, this`firstNonopt, this`lastNonopt, this`nextchar, argv
      ensures more ==> Valid() && nextchar != ""
      ensures !more ==> Finished(optstring, permute, orig, argv[..], optind, events)
    {
      hide Progress, Finished;
      ProgressBounds(optstring, permute, orig, argv[..], firstNonopt, lastNonopt, optind, nextchar, events);
      if permute {
        SkipOperands();
      }
      if optind != argv.Length && argv[optind] == "--" {
        EndOfOptions();
      } else if optind == argv.Length {
        LastElementSeen(optstring, permute, orig, argv[..], firstNonopt, lastNonopt, events);
      }
      if optind == argv.Length {
        if firstNonopt != lastNonopt {
          optind := firstNonopt;
        }
        return false;
      }
      if IsOperand(argv[optind]) {
        StopAtOperand(optstring, orig, argv[..], firstNonopt, lastNonopt, optind, events);
        return false;
      }
      OpenElement(optstring, permute, orig, argv[..], firstNonopt, lastNonopt, optind, events);
      nextchar := argv[optind][1..];
      return true;
    }

    /** One call of getopt. */
    method Next() returns (r: Reply)
      requires Valid()
      modifies this, argv
      ensures argv.Length == 0 ==> r.Done?
      ensures r.Got? ==> Valid() && events == old(events) + [r.event]
      ensures r.Got? ==> 1 <= firstNonopt <= lastNonopt <= optind <= argv.Length
      ensures r.Done? ==> events == old(events)
                          && (argv.Length > 0 ==> Finished(optstring, permute, orig, argv[..], optind, events))
    {
      if argv.Length < 1 {
        return Done;
      }
      if nextchar == "" {
        var more := NextElement();
        if !more {
          return Done;
        }
      }
      r := NextCharacter();
    }

    /** Handles the next option character. */
    method NextCharacter() returns (r: Reply)
      requires argv.Length > 0 && Valid() && nextchar != ""
      modifies this`optind, this`nextchar, this`events
      ensures Valid() && r.Got? && events == old(events) + [r.event]
    {
      hide Progress, Meaning, After, KindOf, MissingCode;
      ghost var s, at := nextchar, optind;
      ProgressBounds(optstring, permute, orig, argv[..], firstNonopt, lastNonopt, optind, nextchar, events);
      var c := nextchar[0];
      nextchar := nextchar[1..];
      var kind := KindOf(optstring, c);
      if nextchar == "" {
        optind := optind + 1;
      }
      var e: Event;
      if kind.Unknown? {
        e := Event('?', None, Some(c));
      } else if kind.OptionalArgument? {
        if nextchar != "" {
          e := Event(c, Some(nextchar), None);
          optind := optind + 1;
        } else {
          e := Event(c, None, None);
        }
        nextchar := "";
      } else if kind.RequiredArgument? {
        if nextchar != "" {
          e := Event(c, Some(nextchar), None);
          optind := optind + 1;
        } else if optind == argv.Length {
          e := Event(MissingCode(optstring), None, Some(c));
        } else {
          e := Event(c, Some(argv[optind]), None);
          optind := optind + 1;
        }
        nextchar := "";
      } else {
        e := Event(c, None, None);
      }
      CharacterMeaning(optstring, permute, s, argv[..], at);
      Report(optstring, permute, orig, argv[..], firstNonopt, lastNonopt, at, s, events, e, optind - at, nextchar);
      events := events + [e];
      return Got(e);
    }
  }

  lemma ProgressBounds(os: string, permute: bool, orig: seq<string>, a: seq<string>, first: nat, last: nat, optind: nat,
                       s: string, events: seq<Event>)
    requires Progress(os, permute, orig, a, first, last, optind, s, events)
    ensures |a| == |orig| && 1 <= first <= last <= optind <= |a| && (s != "" ==> optind < |a|)
            && (!permute ==> first == last)
  {
  }

  lemma LastElementSeen(os: string, permute: bool, orig: seq<string>, a: seq<string>, first: nat, last: nat,
                        events: seq<Event>)
    requires Progress(os, permute, orig, a, first, last, |a|, "", events) && (permute ==> last == |a|)
    ensures |orig| >= 1 && Finished(os, permute, orig, a, if first != last then first else |a|, events)
  {
    hide Meaning, Finished;
    if first == last {
      NoOperandsYet(os, permute, orig, a, first, |a|, "", events);
      AllSeen(os, permute, orig, a, |a|, events);
    } else {
      AllSeen(os, permute, orig, a, first, events);
    }
  }

  /** What the next character means, with the elements it uses up. */
  lemma CharacterMeaning(os: string, permute: bool, s: string, a: seq<string>, at: nat)
    requires s != "" && at < |a|
    ensures var c, tail, m := s[0], s[1..], Meaning(os, permute, s, a[at..]);
            match KindOf(os, c)
            case Unknown => m == After(os, permute, a, at, Event('?', None, Some(c)), if tail == "" then 1 else 0, tail)
            case Plain => m == After(os, permute, a, at, Event(c, None, None), if tail == "" then 1 else 0, tail)
            case OptionalArgument => m == After(os, permute, a, at,
                                                Event(c, if tail == "" then None else Some(tail), None), 1, "")
            case RequiredArgument =>
              if tail != "" then m == After(os, permute, a, at, Event(c, Some(tail), None), 1, "")
              else if at + 1 == |a| then m == After(os, permute, a, at, Event(MissingCode(os), None, Some(c)), 1, "")
              else m == After(os, permute, a, at, Event(c, Some(a[at + 1]), None), 2, "")
  {
    assert a[at..][0] == a[at] && a[at..][1..] == a[at + 1..] && a[at..at] == [] && a[at..at + 1] == [a[at]];
    if at + 1 < |a| {
      assert a[at..][1] == a[at + 1] && a[at..][2..] == a[at + 2..] && a[at..at + 2] == [a[at], a[at + 1]];
    }
  }

  /** The loop of every tool: calls getopt until it returns -1. */
  method ScanAll(argv: array<string>, optstring: string, posixlyCorrect: bool) returns (events: seq<Event>, optind: nat)
    requires argv.Length > 0
    modifies argv
    ensures var m := Meaning(optstring, !posixlyCorrect, "", old(argv[1..]));
            events == m.events && optind == 1 + |m.opts| && argv[..] == [old(argv[0])] + m.opts + m.operands
  {
    var d := new GetoptData(argv, optstring, posixlyCorrect);
    ghost var m := Meaning(optstring, !posixlyCorrect, "", old(argv[1..]));
    hide Meaning;
    events := [];
    var more := true;
    while more
      invariant d.argv == argv && d.optstring == optstring && d.permute == !posixlyCorrect && d.orig == old(argv[..])
      invariant events == d.events
      invariant more ==> d.Valid()
      invariant !more ==> Finished(optstring, !posixlyCorrect, d.orig, argv[..], d.optind, events)
      decreases more, |m.events| - |events|
    {
      var r := d.Next();
      if r.Got? {
        events := events + [r.event];
      } else {
        more := false;
      }
    }
    optind := d.optind;
  }

  /** With permutation the operands are those arguments that are no options, in their order, and come last. */
  lemma ScanKeepsArguments(optstring: string, permute: bool, args: seq<string>)
    ensures var m := Meaning(optstring, permute, "", args);
            Shuffle(args, m.opts, m.operands) && multiset(args) == multiset(m.opts + m.operands)
  {
    MeaningShuffles(optstring, permute, "", args);
    var m := Meaning(optstring, permute, "", args);
    ShuffleSame(args, m.opts, m.operands);
  }

  lemma {:induction false} ShuffleSame<T(!new)>(all: seq<T>, a: seq<T>, b: seq<T>)
    requires Shuffle(all, a, b)
    ensures multiset(all) == multiset(a + b)
    decreases |all|
  {
    if all != [] {
      assert all == [all[0]] + all[1..];
      if a != [] && a[0] == all[0] && Shuffle(all[1..], a[1..], b) {
        ShuffleSame(all[1..], a[1..], b);
        assert a + b == [a[0]] + (a[1..] + b);
      } else {
        ShuffleSame(all[1..], a, b[1..]);
        assert a + b[1..] + [] == a + b[1..];
        assert b == [b[0]] + b[1..];
      }
    }
  }
}
