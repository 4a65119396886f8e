/** Signatures in the call log: taking a printed tuple type apart and putting it together again. */
module Signatures {
  import opened Wrappers

  datatype Sig = Sig(specTypes: seq<string>, extension: string)

  /** All items with `sep` in between. */
  function Join(items: seq<string>, sep: string): string {
    if items == [] then ""
    else if |items| == 1 then items[0]
    else items[0] + sep + Join(items[1..], sep)
  }

  /** The string a signature was parsed from. */
  function ToString(x: Sig): string {
    "Tuple{" + Join(x.specTypes, ", ") + "}" + x.extension
  }

  predicate Opens(c: char) {
    c == '(' || c == '{' || c == '['
  }

  predicate Closes(c: char) {
    c == ')' || c == '}' || c == ']'
  }

  /**
    The bracket depth after reading `t` from depth `d`; None if a comma or a closing bracket comes at depth 0.
    Which bracket closes which is not compared: a mismatch is only worth a warning.
  */
  function Depth(t: string, d: nat): Option<nat> {
    if t == "" then Some(d)
    else if Opens(t[0]) then Depth(t[1..], d + 1)
    else if Closes(t[0]) then (if d == 0 then None else Depth(t[1..], d - 1))
    else if t[0] == ',' && d == 0 then None
    else Depth(t[1..], d)
  }

  /** An argument: balanced, and without a comma outside brackets. */
  predicate Plain(arg: string) {
    Depth(arg, 0) == Some(0)
  }

  /** Where the next argument starts, and whether there is one; or that the end or an error came first. */
  datatype Found = Missing | Failed | At(next: nat, more: bool)

  function NextArgument(s: string, i: nat, d: nat): (r: Found)
    requires i <= |s|
    ensures r.At? ==> i + 2 <= r.next <= |s| + 1
    decreases |s| - i
  {
    if i == |s| then Missing
    else if Opens(s[i]) then NextArgument(s, i + 1, d + 1)
    else if s[i] == '}' && d == 0 then At(i + 2, false)
    else if Closes(s[i]) then (if d == 0 then Failed else NextArgument(s, i + 1, d - 1))
    else if s[i] == ',' && d == 0 then At(i + 2, true)
    else NextArgument(s, i + 1, d)
  }

  /** The loop keeps the brackets that are open; only their number matters. */
  method FindNextArgument(s: string, start: nat) returns (r: Found)
    ensures r == if start <= |s| then NextArgument(s, start, 0) else Missing
  {
    var i, p: seq<char> := start, [];
    while i < |s|
      invariant start <= |s| ==> start <= i <= |s| && NextArgument(s, start, 0) == NextArgument(s, i, |p|)
      invariant start > |s| ==> i == start
    {
      var c := s[i];
      if c == '(' || c == '{' || c == '[' {
        p := p + [c];
      } else if c == ')' || c == ']' {
        if p == [] { return Failed; }
        p := p[..|p| - 1];
      } else if c == '}' {
        if p == [] { return At(i + 2, false); }
        p := p[..|p| - 1];
      } else if c == ',' && p == [] {
        return At(i + 2, true);
      }
      i := i + 1;
    }
    return Missing;
  }

  /** The arguments from place `i` on, and what follows the closing bracket if that is more than one character. */
  function AllArguments(s: string, i: nat): Option<Sig>
    decreases |s| + 1 - i
  {
    if i > |s| then Some(Sig([], ""))
    else
      match NextArgument(s, i, 0)
      case Missing => Some(Sig([], ""))
      case Failed => None
      case At(j, true) =>
        (match AllArguments(s, j)
         case None => None
         case Some(rest) => Some(Sig([s[i..j - 2]] + rest.specTypes, rest.extension)))
      case At(j, false) => Some(Sig([s[i..j - 2]], if j < |s| then s[j - 1..] else ""))
  }

  method FindAllArguments(s: string, start: nat) returns (r: Option<Sig>)
    ensures r == AllArguments(s, start)
  {
    var result: seq<string>, i := [], start;
    ghost var goal := AllArguments(s, start);
    if goal.Some? { assert [] + goal.value.specTypes == goal.value.specTypes; }
    while true
      invariant goal == if AllArguments(s, i).None? then None
                        else Some(Sig(result + AllArguments(s, i).value.specTypes, AllArguments(s, i).value.extension))
      decreases |s| + 1 - i
    {
      var found := FindNextArgument(s, i);
      match found
      case Missing =>
        assert result + [] == result;
        return Some(Sig(result, ""));
      case Failed => return None;
      case At(j, more) =>
        if more && AllArguments(s, j).Some? {
          AppendOne(result, s[i..j - 2], AllArguments(s, j).value.specTypes);
        }
        result := result + [s[i..j - 2]];
        i := j;
        if !more {
          return Some(Sig(result, if i < |s| then s[i - 1..] else ""));
        }
    }
  }

  lemma AppendOne<T>(a: seq<T>, x: T, b: seq<T>)
    ensures a + ([x] + b) == (a + [x]) + b
  {
  }

  // ----- the round trip -----

  lemma {:induction false} ArgumentFound(s: string, i: nat, arg: string, d: nat, c: char, rest: string)
    requires i <= |s| && s[i..] == arg + [c] + rest && Depth(arg, d) == Some(0) && (c == ',' || c == '}')
    ensures NextArgument(s, i, d) == At(i + |arg| + 2, c == ',')
    decreases |arg|
  {
    assert s[i] == (arg + [c] + rest)[0];
    if arg != "" {
      assert s[i + 1..] == s[i..][1..] == arg[1..] + [c] + rest;
      ArgumentFound(s, i + 1, arg[1..], if Opens(arg[0]) then d + 1 else if Closes(arg[0]) then d - 1 else d, c, rest);
    }
  }

  lemma LastArgumentFound(s: string, i: nat, arg: string, ext: string)
    requires i <= |s| && s[i..] == arg + "}" + ext && Plain(arg)
    ensures AllArguments(s, i) == Some(Sig([arg], if |ext| == 1 then "" else ext))
  {
    hide NextArgument, Depth;
    ArgumentFound(s, i, arg, 0, '}', ext);
    assert s[i..i + |arg|] == s[i..][..|arg|] == arg;
    assert |s| == i + |arg| + 1 + |ext|;
    assert i + |arg| + 2 < |s| ==> s[i + |arg| + 1..] == s[i..][|arg| + 1..] == ext;
  }

  /** Parsing gives back the arguments, and the extension unless it is a single character. */
  lemma ArgumentThenMore(s: string, i: nat, arg: string, more: string)
    requires i <= |s| && s[i..] == arg + ", " + more && Plain(arg)
    ensures var j := i + |arg| + 2;
            && j <= |s| && s[j..] == more
            && AllArguments(s, i) ==
                 match AllArguments(s, j)
                 case None => None
                 case Some(sig) => Some(Sig([arg] + sig.specTypes, sig.extension))
  {
    hide NextArgument, Depth;
    assert s[i..] == arg + [','] + ([' '] + more);
    ArgumentFound(s, i, arg, 0, ',', [' '] + more);
    assert s[i..i + |arg|] == s[i..][..|arg|] == arg;
    assert s[i + |arg| + 2..] == s[i..][|arg| + 2..] == more;
  }

  lemma {:induction false} ArgumentsFound(s: string, i: nat, args: seq<string>, ext: string)
    requires i <= |s| && args != [] && s[i..] == Join(args, ", ") + "}" + ext
    requires forall k :: 0 <= k < |args| ==> Plain(args[k])
    ensures AllArguments(s, i) == Some(Sig(args, if |ext| == 1 then "" else ext))
    decreases |args|
  {
    hide AllArguments, Plain;
    var arg := args[0];
    if |args| == 1 {
      LastArgumentFound(s, i, arg, ext);
      assert args == [arg];
    } else {
      var more := Join(args[1..], ", ") + "}" + ext;
      assert s[i..] == arg + ", " + more;
      ArgumentThenMore(s, i, arg, more);
      ArgumentsFound(s, i + |arg| + 2, args[1..], ext);
      assert args == [arg] + args[1..];
    }
  }

  predicate WellFormed(x: Sig) {
    x.specTypes != [] && forall k :: 0 <= k < |x.specTypes| ==> Plain(x.specTypes[k])
  }

  /** A line is one character, the signature as printed, and the arguments start after the bracket. */
  const START: nat := 7

  /** Parsing a printed signature gives it back exactly if its extension is not a single character. */
  lemma PrintedThenParsed(c: char, x: Sig)
    requires WellFormed(x)
    ensures AllArguments([c] + ToString(x), START) == Some(x) <==> |x.extension| != 1
    ensures AllArguments([c] + ToString(x), START).Some?
  {
    var line := [c] + ToString(x);
    assert line[START..] == Join(x.specTypes, ", ") + "}" + x.extension;
    ArgumentsFound(line, START, x.specTypes, x.extension);
  }

  /** And printing a parsed line gives the line back in the same case, also for an empty list of arguments. */
  lemma ParsedThenPrinted(c: char, args: seq<string>, ext: string)
    requires forall k :: 0 <= k < |args| ==> Plain(args[k])
    ensures var text := ToString(Sig(args, ext)); var parsed := AllArguments([c] + text, START);
            parsed.Some? && (ToString(parsed.value) == text <==> |ext| != 1)
  {
    var shown := if args == [] then [""] else args;
    assert Join(shown, ", ") == Join(args, ", ");
    var x := Sig(shown, ext);
    assert WellFormed(x);
    PrintedThenParsed(c, x);
    var line := [c] + ToString(x);
    assert line[START..] == Join(shown, ", ") + "}" + ext;
    ArgumentsFound(line, START, shown, ext);
    if |ext| == 1 {
      assert |ToString(Sig(shown, ""))| < |ToString(x)|;
    }
  }

  // ----- nested types are one argument -----

  /** Reading one string after another. */
  lemma {:induction false} DepthAppend(a: string, b: string, d: nat)
    ensures Depth(a + b, d) == if Depth(a, d).None? then None else Depth(b, Depth(a, d).value)
  {
    if a == "" {
      assert a + b == b;
    } else {
      assert (a + b)[0] == a[0] && (a + b)[1..] == a[1..] + b;
      if Opens(a[0]) {
        DepthAppend(a[1..], b, d + 1);
      } else if Closes(a[0]) {
        if d > 0 { DepthAppend(a[1..], b, d - 1); }
      } else {
        DepthAppend(a[1..], b, d);
      }
    }
  }

  /** Inside one more bracket everything is one deeper. */
  lemma {:induction false} DepthInside(a: string, d: nat)
    requires Depth(a, d).Some?
    ensures Depth(a, d + 1) == Some(Depth(a, d).value + 1)
  {
    if a != "" {
      if Opens(a[0]) {
        DepthInside(a[1..], d + 1);
      } else if Closes(a[0]) {
        DepthInside(a[1..], d - 1);
      } else {
        DepthInside(a[1..], d);
      }
    }
  }

  lemma {:induction false} JoinInside(args: seq<string>)
    requires forall k :: 0 <= k < |args| ==> Plain(args[k])
    ensures Depth(Join(args, ", "), 1) == Some(1)
  {
    if args != [] {
      DepthInside(args[0], 0);
      if |args| > 1 {
        JoinInside(args[1..]);
        var rest := Join(args[1..], ", ");
        assert args[0] + ", " + rest == args[0] + (", " + rest);
        DepthAppend(args[0], ", " + rest, 1);
        DepthAppend(", ", rest, 1);
        Separator();
      }
    }
  }

  lemma Separator()
    ensures Depth(", ", 1) == Some(1)
  {
    assert ", "[1..] == " " && " "[1..] == "";
  }

  /** A name with parameters in any kind of brackets is one argument, whatever commas are inside. */
  lemma NestedIsPlain(name: string, open: char, args: seq<string>, close: char)
    requires Plain(name) && forall k :: 0 <= k < |args| ==> Plain(args[k])
    requires (open == '{' && close == '}') || (open == '(' && close == ')') || (open == '[' && close == ']')
    ensures Plain(name + [open] + Join(args, ", ") + [close])
  {
    hide Depth, Join, Plain;
    var inner := Join(args, ", ");
    JoinInside(args);
    BracketDepth(open, close);
    PlainDepth(name);
    PlainDepth(name + [open] + inner + [close]);
    assert name + [open] + inner + [close] == name + ([open] + (inner + [close]));
    DepthAppend(name, [open] + (inner + [close]), 0);
    DepthAppend([open], inner + [close], 0);
    DepthAppend(inner, [close], 1);
  }

  lemma PlainDepth(arg: string)
    ensures Plain(arg) <==> Depth(arg, 0) == Some(0)
  {
  }

  lemma BracketDepth(open: char, close: char)
    requires Opens(open) && Closes(close)
    ensures Depth([open], 0) == Some(1) && Depth([close], 1) == Some(0)
  {
    assert [open][1..] == "" && [close][1..] == "";
  }
}
