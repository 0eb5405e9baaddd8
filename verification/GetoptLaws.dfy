/** What an option string says, in terms of the characters in it: laws of the meaning of an argument vector. */
module GetoptLaws {
  import opened Options
  import opened Getopt

  /** The events begin with `e`, the option elements with `taken`; `rest` is what is behind them. */
  ghost predicate Begins(m: Parse, e: Event, taken: seq<string>, rest: Parse) {
    m.events == [e] + rest.events && m.opts == taken + rest.opts && m.operands == rest.operands
  }

  lemma {:induction false} FirstPlace(u: string, c: char, v: string, i: nat)
    requires c !in u && i <= |u|
    ensures StrChr(u + [c] + v, c, i) == |u|
    decreases |u| - i
  {
    if i < |u| {
      assert (u + [c] + v)[i] == u[i];
      FirstPlace(u, c, v, i + 1);
    }
  }

  lemma KindIs(u: string, c: char, v: string)
    requires c !in u && c != ':'
    ensures var os := u + [c] + v;
            KindOf(os, c) == if v == "" || v[0] != ':' then Plain
                             else if v == ":" || v[1] != ':' then RequiredArgument
                             else OptionalArgument
  {
    FirstPlace(u, c, v, 0);
    var os, k := u + [c] + v, |u|;
    assert |os| == k + 1 + |v|;
    assert v != "" ==> os[k + 1] == v[0];
    assert |v| > 1 ==> os[k + 2] == v[1];
  }

  lemma UnknownKind(os: string, c: char)
    requires c !in os || c == ':'
    ensures KindOf(os, c) == Unknown
  {
    assert StrChr(os, c, 0) < |os| ==> os[StrChr(os, c, 0)] == c;
  }

  // ----- Elements of the vector -----

  /** "-" and more is an element of option characters, unless it is "--". */
  lemma OptionElement(os: string, permute: bool, s: string, more: seq<string>)
    requires s != "" && s != "-"
    ensures Meaning(os, permute, "", ["-" + s] + more) == Meaning(os, permute, s, ["-" + s] + more)
  {
    var args := ["-" + s] + more;
    assert args[0] == "-" + s && args[0][1..] == s;
  }

  /** "--" is passed by, and all behind it are operands. */
  lemma DoubleDash(os: string, permute: bool, more: seq<string>)
    ensures Meaning(os, permute, "", ["--"] + more) == Parse([], ["--"], more)
  {
    assert (["--"] + more)[1..] == more;
  }

  /**
   * "", "-" and what does not start with a dash are operands; the first one ends the options if POSIX order is asked
   * for.
   */
  lemma OperandElement(os: string, permute: bool, x: string, more: seq<string>)
    requires x == "" || x == "-" || x[0] != '-'
    ensures var m, rest := Meaning(os, permute, "", [x] + more), Meaning(os, permute, "", more);
            m == if permute then Parse(rest.events, rest.opts, [x] + rest.operands) else Parse([], [], [x] + more)
  {
    var args := [x] + more;
    assert args[0] == x && args[1..] == more;
  }

  // ----- Characters of an element -----

  /** A character without a colon behind it in the option string: the element goes on with the next character. */
  lemma FlagLaw(u: string, c: char, v: string, permute: bool, tail: string, args: seq<string>)
    requires c !in u && c != ':' && (v == "" || v[0] != ':') && args != []
    ensures var os := u + [c] + v; var m := Meaning(os, permute, [c] + tail, args);
            && (tail == "" ==> Begins(m, Event(c, None, None), [args[0]], Meaning(os, permute, "", args[1..])))
            && (tail != "" ==> Begins(m, Event(c, None, None), [], Meaning(os, permute, tail, args)))
  {
    KindIs(u, c, v);
    hide KindOf;
    assert ([c] + tail)[1..] == tail;
  }

  /**
   * A character with one colon behind it: the rest of the element is its argument, else the next element, else none is
   * left.
   */
  lemma RequiredLaw(u: string, c: char, v: string, permute: bool, tail: string, args: seq<string>)
    requires c !in u && c != ':' && v != "" && v[0] == ':' && (v == ":" || v[1] != ':') && args != []
    ensures var os := u + [c] + v; var m := Meaning(os, permute, [c] + tail, args);
            && (tail != "" ==> Begins(m, Event(c, Some(tail), None), [args[0]], Meaning(os, permute, "", args[1..])))
            && (tail == "" && |args| > 1 ==>
                  Begins(m, Event(c, Some(args[1]), None), [args[0], args[1]], Meaning(os, permute, "", args[2..])))
            && (tail == "" && |args| == 1 ==>
                  m == Parse([Event(if os[0] == ':' then ':' else '?', None, Some(c))], args, []))
  {
    KindIs(u, c, v);
    hide KindOf;
    assert ([c] + tail)[1..] == tail;
    if |args| == 1 {
      assert args[1..] == [] && args == [args[0]];
    }
  }

  /** A character with two colons behind it: the rest of the element is its argument, but the next element is not. */
  lemma OptionalLaw(u: string, c: char, v: string, permute: bool, tail: string, args: seq<string>)
    requires c !in u && c != ':' && |v| >= 2 && v[0] == ':' && v[1] == ':' && args != []
    ensures var os := u + [c] + v;
            Begins(Meaning(os, permute, [c] + tail, args),
                   Event(c, if tail == "" then None else Some(tail), None), [args[0]],
                       Meaning(os, permute, "", args[1..]))
  {
    KindIs(u, c, v);
    hide KindOf;
    assert ([c] + tail)[1..] == tail;
  }

  /** A character that the option string does not hold, and the colon: reported as '?', and the element goes on. */
  lemma UnknownLaw(os: string, c: char, permute: bool, tail: string, args: seq<string>)
    requires (c !in os || c == ':') && args != []
    ensures var m := Meaning(os, permute, [c] + tail, args);
            && (tail == "" ==> Begins(m, Event('?', None, Some(c)), [args[0]], Meaning(os, permute, "", args[1..])))
            && (tail != "" ==> Begins(m, Event('?', None, Some(c)), [], Meaning(os, permute, tail, args)))
  {
    UnknownKind(os, c);
    hide KindOf;
    assert ([c] + tail)[1..] == tail;
  }

  // ----- Whole arguments -----

  lemma SameElements(x: string, y: string, more: seq<string>)
    ensures ([x, y] + more)[0] == x && ([x, y] + more)[1] == y && ([x, y] + more)[1..] == [y] + more
    ensures ([x, y] + more)[2..] == more && [x, y] + more == [x] + ([y] + more)
  {
  }

  /** "-c" and an operand `x` behind it: which colons make `x` the argument of `c`. */
  lemma ArgumentTaken(u: string, c: char, v: string, x: string, more: seq<string>)
    requires c !in u && c != ':' && c != '-' && (x == "" || x == "-" || x[0] != '-')
    ensures var os := u + [c] + v; var m, rest := Meaning(os, true, "", ["-" + [c], x] + more),
            Meaning(os, true, "", more);
            if v != "" && v[0] == ':' && (v == ":" || v[1] != ':') then
              m == Parse([Event(c, Some(x), None)] + rest.events, ["-" + [c], x] + rest.opts, rest.operands)
            else
              m == Parse([Event(c, None, None)] + rest.events, ["-" + [c]] + rest.opts, [x] + rest.operands)
  {
    var os, args := u + [c] + v, ["-" + [c], x] + more;
    SameElements("-" + [c], x, more);
    OptionElement(os, true, [c], [x] + more);
    OperandElement(os, true, x, more);
    hide Meaning;
    assert [c] + "" == [c];
    if v == "" || v[0] != ':' {
      FlagLaw(u, c, v, true, "", args);
    } else if v == ":" || v[1] != ':' {
      RequiredLaw(u, c, v, true, "", args);
    } else {
      OptionalLaw(u, c, v, true, "", args);
    }
  }

  /** "-cx" in one element: with a colon or two `x` is the argument, without it stands for further options. */
  lemma ArgumentAttached(u: string, c: char, v: string, permute: bool, x: string, more: seq<string>)
    requires c !in u && c != ':' && x != ""
    ensures var os, s := u + [c] + v, [c] + x; var m, rest := Meaning(os, permute, "", ["-" + s] + more),
            Meaning(os, permute, "", more);
            if v != "" && v[0] == ':' then
              m == Parse([Event(c, Some(x), None)] + rest.events, ["-" + s] + rest.opts, rest.operands)
            else
              var others := Meaning(os, permute, x, ["-" + s] + more);
              m == Parse([Event(c, None, None)] + others.events, others.opts, others.operands)
  {
    var os, s := u + [c] + v, [c] + x;
    var args := ["-" + s] + more;
    assert args[0] == "-" + s && args[1..] == more;
    assert s != "-" by {
      assert |s| > 1;
    }
    OptionElement(os, permute, s, more);
    hide Meaning;
    if v == "" || v[0] != ':' {
      FlagLaw(u, c, v, permute, x, args);
    } else if v == ":" || v[1] != ':' {
      RequiredLaw(u, c, v, permute, x, args);
    } else {
      OptionalLaw(u, c, v, permute, x, args);
    }
  }

  /** cpmls -f ibm-3740 a.img, with the options of that tool. */
  lemma FormatOption()
    ensures Meaning("cT:f:ih?dDFlA", true, "", ["-f", "ibm-3740", "a.img"])
            == Parse([Event('f', Some("ibm-3740"), None)], ["-f", "ibm-3740"], ["a.img"])
  {
    var u, v := "cT:", ":ih?dDFlA";
    assert u + ['f'] + v == "cT:f:ih?dDFlA";
    ArgumentTaken(u, 'f', v, "ibm-3740", ["a.img"]);
    OperandElement(u + ['f'] + v, true, "a.img", []);
    assert "-" + ['f'] == "-f";
    assert ["-" + ['f'], "ibm-3740"] + ["a.img"] == ["-f", "ibm-3740", "a.img"];
    assert ["a.img"] + [] == ["a.img"];
  }
}
