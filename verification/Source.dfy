/** Brainfuck source text: which texts are balanced, and the program a balanced text denotes. */
module Source {
  import opened Bytes
  import opened Brainfuck

  predicate IsCommand(c: char) { c in "><+-.,[]" }

  /** The text without its comments. */
  function Strip(src: string): string {
    if src == [] then []
    else (if IsCommand(src[0]) then [src[0]] else []) + Strip(src[1..])
  }

  function Nesting(c: char): int {
    if c == '[' then 1 else if c == ']' then -1 else 0
  }

  /** Opening minus closing brackets. */
  function Depth(src: string): int {
    if src == [] then 0 else Nesting(src[0]) + Depth(src[1..])
  }

  /** Some prefix closes more brackets than it opens. */
  predicate Dips(src: string) { exists k :: 0 <= k <= |src| && Depth(src[..k]) < 0 }

  predicate Balanced(src: string) { !Dips(src) && Depth(src) == 0 }

  function Symbol(cmd: Cmd): char {
    match cmd
    case Right => '>'
    case Left => '<'
    case Inc => '+'
    case Dec => '-'
    case Out => '.'
    case In => ','
  }

  function CommandOf(c: char): Cmd
    requires IsCommand(c) && c != '[' && c != ']'
    ensures Symbol(CommandOf(c)) == c
  {
    match c
    case '>' => Right
    case '<' => Left
    case '+' => Inc
    case '-' => Dec
    case '.' => Out
    case _ => In
  }

  /** The text of a program. */
  function Text(p: Prog): string {
    match p
    case End => ""
    case Do(cmd, rest) => [Symbol(cmd)] + Text(rest)
    case Loop(body, rest) => "[" + Text(body) + "]" + Text(rest)
  }

  /** Reads a program up to the end or to the first bracket that closes nothing in it;
      None when a bracket is never closed. */
  function Parse(s: string): (r: Option<(Prog, string)>)
    requires forall i :: 0 <= i < |s| ==> IsCommand(s[i])
    ensures r.Some? ==> |r.value.1| <= |s| && s == Text(r.value.0) + r.value.1
    ensures r.Some? ==> forall i :: 0 <= i < |r.value.1| ==> IsCommand(r.value.1[i])
    ensures r.Some? && r.value.1 != [] ==> r.value.1[0] == ']'
    ensures r.None? ==> Depth(s) > 0
    decreases |s|
  {
    if s == [] || s[0] == ']' then Some((End, s))
    else if s[0] == '[' then
      match Parse(s[1..])
      case None => None
      case Some((body, tail)) =>
        DepthAdd(Text(body), tail);
        DepthText(body);
        if tail == [] then None
        else
          match Parse(tail[1..])
          case None => None
          case Some((rest, end)) =>
            TextLoop(s, body, tail, rest, end);
            Some((Loop(body, rest), end))
    else
      match Parse(s[1..])
      case None => None
      case Some((rest, end)) => Some((Do(CommandOf(s[0]), rest), end))
  }

  lemma TextLoop(s: string, body: Prog, tail: string, rest: Prog, end: string)
    requires s != [] && s[0] == '[' && s[1..] == Text(body) + tail
    requires tail != [] && tail[0] == ']' && tail[1..] == Text(rest) + end
    ensures s == Text(Loop(body, rest)) + end
  {
    assert Text(Loop(body, rest)) == ['['] + Text(body) + [']'] + Text(rest);
    hide Text;
    assert s == ['['] + s[1..];
    assert tail == [']'] + tail[1..];
    RegroupFive(['['], Text(body), [']'], Text(rest), end);
  }

  lemma RegroupFive(a: string, b: string, c: string, d: string, e: string)
    ensures a + (b + (c + (d + e))) == a + b + c + d + e
  {
    assert a + (b + (c + (d + e))) == a + b + (c + (d + e));
    assert a + b + (c + (d + e)) == a + b + c + (d + e);
  }

  lemma {:induction false} DepthAdd(s: string, t: string)
    ensures Depth(s + t) == Depth(s) + Depth(t)
  {
    if s == [] {
      assert s + t == t;
    } else {
      assert (s + t)[1..] == s[1..] + t;
      DepthAdd(s[1..], t);
    }
  }

  lemma DepthCons(c: char, s: string)
    ensures Depth([c] + s) == Nesting(c) + Depth(s)
  {
    assert ([c] + s)[1..] == s;
  }

  lemma {:induction false} DepthText(p: Prog)
    ensures Depth(Text(p)) == 0
  {
    match p
    case End =>
    case Do(cmd, rest) =>
      DepthCons(Symbol(cmd), Text(rest));
      DepthText(rest);
    case Loop(body, rest) =>
      assert Text(p) == ['['] + (Text(body) + ([']'] + Text(rest)));
      DepthCons('[', Text(body) + ([']'] + Text(rest)));
      DepthAdd(Text(body), [']'] + Text(rest));
      DepthCons(']', Text(rest));
      DepthText(body);
      DepthText(rest);
  }

  lemma {:induction false} StripCommands(src: string)
    ensures forall i :: 0 <= i < |Strip(src)| ==> IsCommand(Strip(src)[i])
  {
    if src != [] { StripCommands(src[1..]); }
  }

  /** Comments do not change the nesting: prefixes of the stripped text are stripped prefixes. */
  lemma {:induction false} StripPrefix(src: string, k: nat) returns (j: nat)
    requires k <= |Strip(src)|
    ensures j <= |src| && Depth(src[..j]) == Depth(Strip(src)[..k])
  {
    if k == 0 {
      j := 0;
    } else {
      var skip := if IsCommand(src[0]) then 1 else 0;
      j := StripPrefix(src[1..], k - skip);
      assert src[..j + 1] == [src[0]] + src[1..][..j];
      DepthCons(src[0], src[1..][..j]);
      if skip == 1 {
        assert Strip(src)[..k] == [src[0]] + Strip(src[1..])[..k - 1];
        DepthCons(src[0], Strip(src[1..])[..k - 1]);
      } else {
        assert Strip(src) == Strip(src[1..]);
      }
      j := j + 1;
    }
  }

  lemma {:induction false} StripDepth(src: string)
    ensures Depth(Strip(src)) == Depth(src)
  {
    if src != [] {
      StripDepth(src[1..]);
      DepthCons(src[0], Strip(src[1..]));
      assert [] + Strip(src[1..]) == Strip(src[1..]);
    }
  }

  /** The program denoted by a balanced text. */
  function Program(src: string): (p: Prog)
    requires Balanced(src)
    ensures Text(p) == Strip(src)
  {
    StripCommands(src);
    StripDepth(src);
    var r := Parse(Strip(src)).value;
    ParsedAll(src, r.0, r.1);
    r.0
  }

  /** A stray closing bracket would make the text dip. */
  lemma {:induction false} ParsedAll(src: string, p: Prog, tail: string)
    requires Balanced(src) && Strip(src) == Text(p) + tail
    requires tail != [] ==> tail[0] == ']'
    ensures tail == [] && Strip(src) == Text(p)
  {
    if tail != [] {
      var s := Strip(src);
      var k := |Text(p)| + 1;
      assert s[..k] == Text(p) + "]";
      DepthText(p);
      DepthAdd(Text(p), "]");
      DepthCons(']', []);
      assert [']'] + [] == "]";
      var j := StripPrefix(src, k);
      assert false;
    } else {
      assert Text(p) + tail == Text(p);
    }
  }

  /** Distinct programs have distinct texts, so a balanced text denotes exactly one program. */
  lemma {:induction false} TextInjective(p: Prog, q: Prog, s: string, t: string)
    requires Text(p) + s == Text(q) + t
    requires s != [] ==> s[0] == ']'
    requires t != [] ==> t[0] == ']'
    ensures p == q && s == t
  {
    hide Text;
    HeadOfText(p, s);
    HeadOfText(q, t);
    match p
    case End =>
    case Do(cmd, rest) =>
      TextInjective(rest, q.rest, s, t);
    case Loop(body, rest) =>
      TextInjective(body, q.body, "]" + (Text(rest) + s), "]" + (Text(q.rest) + t));
      assert ("]" + (Text(rest) + s))[1..] == Text(rest) + s;
      assert ("]" + (Text(q.rest) + t))[1..] == Text(q.rest) + t;
      TextInjective(rest, q.rest, s, t);
  }

  lemma HeadOfText(p: Prog, s: string)
    requires s != [] ==> s[0] == ']'
    ensures p.End? <==> (Text(p) + s == [] || (Text(p) + s)[0] == ']')
    ensures p.Loop? <==> (Text(p) + s != [] && (Text(p) + s)[0] == '[')
    ensures p.End? ==> Text(p) + s == s
    ensures p.Do? ==> (Text(p) + s)[0] == Symbol(p.cmd) && (Text(p) + s)[1..] == Text(p.rest) + s
    ensures p.Loop? ==> (Text(p) + s)[1..] == Text(p.body) + ("]" + (Text(p.rest) + s))
  {
    match p
    case End =>
    case Do(cmd, rest) => Regroup([Symbol(cmd)], Text(rest), [], s);
    case Loop(body, rest) =>
      TextOfLoop(p);
      hide Text;
      Regroup(['['] + Text(body), [']'], Text(rest), s);
      Regroup(['['], Text(body), [']'], Text(rest) + s);
      FirstOf('[', Text(body) + ([']'] + (Text(rest) + s)));
  }

  lemma TextOfLoop(p: Prog)
    requires p.Loop?
    ensures Text(p) == ['['] + Text(p.body) + [']'] + Text(p.rest)
  {
  }

  lemma FirstOf(c: char, s: string)
    ensures ([c] + s)[0] == c && ([c] + s)[1..] == s
  {
  }

  lemma Regroup(a: string, b: string, c: string, d: string)
    ensures a + b + c + d == a + (b + (c + d))
    ensures a + b + c + d == a + b + (c + d)
    ensures c == [] ==> a + b + d == a + (b + d)
  {
  }

  /** The text of a program closes no bracket that it has not opened. */
  lemma {:induction false} TextNeverDips(p: Prog, k: nat)
    requires k <= |Text(p)|
    ensures Depth(Text(p)[..k]) >= 0
    decreases p
  {
    hide Text, Depth;
    match p
    case End => EndText();
      DepthNothing(Text(p)[..k]);
    case Do(cmd, rest) =>
      DoText(cmd, rest);
      if k == 0 {
        DepthNothing(Text(p)[..k]);
      } else {
        assert Text(p)[..k] == [Symbol(cmd)] + Text(rest)[..k - 1];
        DepthCons(Symbol(cmd), Text(rest)[..k - 1]);
        TextNeverDips(rest, k - 1);
      }
    case Loop(body, rest) =>
      var n := |Text(body)|;
      TextOfLoop(p);
      if k == 0 {
        DepthNothing(Text(p)[..k]);
      } else if k <= n + 1 {
        assert Text(p)[..k] == ['['] + Text(body)[..k - 1];
        DepthCons('[', Text(body)[..k - 1]);
        TextNeverDips(body, k - 1);
      } else {
        var tail := Text(rest)[..k - n - 2];
        assert Text(p)[..k] == ['['] + (Text(body) + ([']'] + tail));
        DepthCons('[', Text(body) + ([']'] + tail));
        DepthAdd(Text(body), [']'] + tail);
        DepthCons(']', tail);
        DepthText(body);
        TextNeverDips(rest, k - n - 2);
      }
  }

  lemma EndText()
    ensures Text(End) == ""
  {
  }

  lemma DoText(cmd: Cmd, rest: Prog)
    ensures Text(Do(cmd, rest)) == [Symbol(cmd)] + Text(rest)
  {
  }

  lemma DepthNothing(s: string)
    requires |s| == 0
    ensures Depth(s) == 0
  {
  }

  lemma {:induction false} StripAdd(a: string, b: string)
    ensures Strip(a + b) == Strip(a) + Strip(b)
  {
    hide IsCommand;
    if a == [] {
      assert a + b == b;
    } else {
      assert (a + b)[1..] == a[1..] + b;
      StripAdd(a[1..], b);
      Associate(if IsCommand(a[0]) then [a[0]] else [], Strip(a[1..]), Strip(b));
    }
  }

  lemma StripUnit(c: char)
    requires IsCommand(c)
    ensures Strip([c]) == [c]
  {
    assert [c][1..] == [] && Strip([]) == [];
  }

  lemma {:induction false} StripText(p: Prog)
    ensures Strip(Text(p)) == Text(p)
  {
    hide Strip;
    match p
    case End => StripNothing();
    case Do(cmd, rest) =>
      StripUnit(Symbol(cmd));
      StripAdd([Symbol(cmd)], Text(rest));
      StripText(rest);
    case Loop(body, rest) =>
      TextOfLoop(p);
      StripText(body);
      StripText(rest);
      StripUnit('[');
      StripUnit(']');
      hide Text, IsCommand;
      StripAdd(['['] + Text(body) + [']'], Text(rest));
      StripAdd(['['] + Text(body), [']']);
      StripAdd(['['], Text(body));
  }

  lemma StripNothing()
    ensures Strip([]) == []
  {
  }

  /** Every program has a text, which is balanced and denotes it. */
  lemma ProgramOfText(p: Prog)
    ensures Balanced(Text(p)) && Program(Text(p)) == p
  {
    hide Text, Strip, Depth;
    DepthText(p);
    forall k | 0 <= k <= |Text(p)| ensures Depth(Text(p)[..k]) >= 0 { TextNeverDips(p, k); }
    StripText(p);
    var q := Program(Text(p));
    assert Text(q) + [] == Text(p) + [];
    TextInjective(q, p, [], []);
  }
}
