/** The exported log, line by line, and the parser that builds tables from it. */
module CallLogParser {
  import opened Wrappers
  import opened Signatures
  import opened CallLog

  // ----- numbers -----

  function Digit(n: nat): char
    requires n < 10
  {
    '0' + n as char
  }

  predicate IsDigit(c: char) {
    '0' <= c <= '9'
  }

  function Decimal(n: nat): (s: string)
    ensures s != ""
  {
    if n < 10 then [Digit(n)] else Decimal(n / 10) + [Digit(n % 10)]
  }

  function Number(s: string): Option<nat> {
    if s == "" then Some(0)
    else
      var last, rest := s[|s| - 1], Number(s[..|s| - 1]);
      if rest.None? || !IsDigit(last) then None else Some(10 * rest.value + (last - '0') as nat)
  }

  lemma {:induction false} DecimalRead(n: nat)
    ensures Number(Decimal(n)) == Some(n) && IsDigit(Decimal(n)[0])
  {
    var s := Decimal(n);
    if n < 10 {
      assert s[..0] == "";
    } else {
      DecimalRead(n / 10);
      assert s[..|s| - 1] == Decimal(n / 10) && s[|s| - 1] == Digit(n % 10);
    }
  }

  // ----- the log -----

  const UINT32: nat := 0x1_0000_0000

  function KeyLines(p: Printer, level: nat, key: nat): seq<string> {
    if level == 0 then ["", if p.quoted(key) then "Symbol(\"" + p.name(key) + "\")" else ":" + p.name(key)]
    else if level == 1 then ["*" + Decimal(key)]
    else if level == 2 then ["$" + ToString(p.signature(key))]
    else [" " + ToString(p.signature(key))]
  }

  /** There are four levels of tables above the counters. */
  function Export(p: Printer, t: Node, level: nat): seq<string>
    requires level <= 4
    decreases 4 - level, 1, 0
  {
    match t
    case Counter(n) => [Decimal(n)]
    case Table(entries) => if level == 4 then [] else ExportEntries(p, entries, level)
  }

  function ExportEntries(p: Printer, entries: seq<Entry>, level: nat): seq<string>
    requires level < 4
    decreases 4 - level, 0, |entries|
  {
    if entries == [] then []
    else
      KeyLines(p, level, entries[0].key) +
      (Export(p, entries[0].node, level + 1) + ExportEntries(p, entries[1..], level))
  }

  /** One call recorded once, as it is printed. */
  lemma SampleExport(p: Printer)
    requires p.name(1) == "f" && !p.quoted(1)
    requires p.signature(2) == Sig(["Int64", "Any"], "") && p.signature(3) == Sig(["Bool"], "x1")
    ensures Export(p, RecordAll([[1, 70, 2, 3]]), 0) ==
            ["", ":f", "*70", "$Tuple{Int64, Any}", " Tuple{Bool}x1", "1"]
  {
    SampleTable();
    SampleKeys(p);
    assert ExportEntries(p, [], 0) == ExportEntries(p, [], 1) == [];
    assert ExportEntries(p, [], 2) == ExportEntries(p, [], 3) == [];
    assert Export(p, Counter(1), 4) == ["1"];
    var calls := [Entry(3, Counter(1))];
    assert ExportEntries(p, calls, 3) == [" Tuple{Bool}x1", "1"];
    var methods := [Entry(2, Table(calls))];
    assert ExportEntries(p, methods, 2) == ["$Tuple{Int64, Any}", " Tuple{Bool}x1", "1"];
    var sites := [Entry(70, Table(methods))];
    assert ExportEntries(p, sites, 1) == ["*70", "$Tuple{Int64, Any}", " Tuple{Bool}x1", "1"];
  }

  lemma SampleTable()
    ensures RecordAll([[1, 70, 2, 3]]) ==
            Table([Entry(1, Table([Entry(70, Table([Entry(2, Table([Entry(3, Counter(1))]))]))]))])
  {
    var path: seq<nat> := [1, 70, 2, 3];
    assert [path][..0] == [] && RecordAll([path]) == Record(Table([]), path);
    assert path[1..] == [70, 2, 3] && [70, 2, 3][1..] == [2, 3] && [2, 3][1..] == [3] && [3][1..] == [];
    assert Record(Fresh(0), []) == Counter(1);
    assert Record(Fresh(1), [3]) == Table([Entry(3, Counter(1))]);
    assert Record(Fresh(2), [2, 3]) == Table([Entry(2, Table([Entry(3, Counter(1))]))]);
  }

  lemma SampleKeys(p: Printer)
    requires p.name(1) == "f" && !p.quoted(1)
    requires p.signature(2) == Sig(["Int64", "Any"], "") && p.signature(3) == Sig(["Bool"], "x1")
    ensures KeyLines(p, 0, 1) == ["", ":f"] && KeyLines(p, 1, 70) == ["*70"]
    ensures KeyLines(p, 2, 2) == ["$Tuple{Int64, Any}"] && KeyLines(p, 3, 3) == [" Tuple{Bool}x1"]
  {
    assert ":" + "f" == ":f" && [Digit(7)] == "7" && [Digit(0)] == "0";
    assert "*" + Decimal(70) == "*70" by { assert Decimal(70) == Decimal(7) + [Digit(0)] == "70"; }
    assert ["Int64", "Any"][1..] == ["Any"];
    assert Join(["Int64", "Any"], ", ") == "Int64, Any" && Join(["Bool"], ", ") == "Bool";
    assert ToString(p.signature(2)) == "Tuple{Int64, Any}" && ToString(p.signature(3)) == "Tuple{Bool}x1";
    assert "$" + ToString(p.signature(2)) == "$Tuple{Int64, Any}" && " " + ToString(p.signature(3)) == " Tuple{Bool}x1";
  }

  // ----- the parser -----

  type Calls = map<Sig, nat>
  type Methods = map<Sig, Calls>
  type Sites = map<nat, Methods>
  type Functions = map<string, Sites>

  datatype State = State(funs: Functions, fun: string, site: nat, meth: Sig, call: Sig, skip: bool)

  const START_STATE: State := State(map[], "", 0, Sig([], ""), Sig([], ""), false)

  predicate HasSite(s: State) {
    s.fun in s.funs && s.site in s.funs[s.fun]
  }

  predicate HasMethod(s: State) {
    HasSite(s) && s.meth in s.funs[s.fun][s.site]
  }

  function SetMethods(s: State, ms: Methods): Functions
    requires s.fun in s.funs
  {
    var sites: Sites := s.funs[s.fun];
    var changed: Sites := sites[s.site := ms];
    s.funs[s.fun := changed]
  }

  function ParseSignature(line: string): Option<Sig> {
    if |line| < 6 || line[1..6] != "Tuple" then None else AllArguments(line, START)
  }

  function ParseName(s: State, name: string): State {
    s.(fun := name, funs := if name in s.funs then s.funs else s.funs[name := map[]])
  }

  /** One line; None where the program stops with an error. */
  function ParseLine(s: State, line: string): Option<State> {
    if line == "" then Some(s.(skip := false))
    else if s.skip then Some(s)
    else if line[0] == '*' then
      var n := Number(line[1..]);
      if n.None? || |line| == 1 || n.value >= UINT32 || s.fun !in s.funs then None
      else
        var s' := s.(site := n.value);
        Some(if HasSite(s') then s' else s'.(funs := SetMethods(s', map[])))
    else if line[0] == '$' then
      var sig := ParseSignature(line);
      if sig.None? || !HasSite(s) then None
      else
        var s' := s.(meth := sig.value);
        Some(if HasMethod(s') then s' else s'.(funs := SetMethods(s', s'.funs[s'.fun][s'.site][s'.meth := map[]])))
    else if line[0] == ' ' then
      var sig := ParseSignature(line);
      if |line| < 6 || line[1..6] != "Tuple" then None
      else if s.meth.specTypes == [] then Some(s.(call := Sig([], "")))
      else if sig.None? then None
      else Some(s.(call := sig.value))
    else if IsDigit(line[0]) then
      var n := Number(line);
      if n.None? || !HasMethod(s) then None
      else
        var calls := s.funs[s.fun][s.site][s.meth];
        var count := (if s.call in calls then calls[s.call] else 0) + n.value;
        Some(s.(funs := SetMethods(s, s.funs[s.fun][s.site][s.meth := calls[s.call := count]])))
    else if line[0] == ':' then Some(ParseName(s, line[1..]))
    else if |line| < 10 || line[..6] != "Symbol" then Some(s.(skip := true))
    else Some(ParseName(s, line[8..|line| - 2]))
  }

  function Parse(s: State, lines: seq<string>): Option<State>
    decreases |lines|
  {
    if lines == [] then Some(s)
    else
      var next := ParseLine(s, lines[0]);
      if next.None? then None else Parse(next.value, lines[1..])
  }

  /** The loop over the lines, with the current function, site, method and call in variables. */
  method ParsePerf(lines: seq<string>) returns (r: Option<Functions>)
    ensures var s := Parse(START_STATE, lines); if s.None? then r == None else r == Some(s.value.funs)
  {
    var s := START_STATE;
    assert lines[0..] == lines;
    for i := 0 to |lines|
      invariant Parse(s, lines[i..]) == Parse(START_STATE, lines)
    {
      assert lines[i..][0] == lines[i] && lines[i..][1..] == lines[i + 1..];
      var next := ParseLine(s, lines[i]);
      if next.None? { return None; }
      s := next.value;
    }
    r := Some(s.funs);
  }

  function Count(funs: Functions, keys: seq<Key>): nat {
    if |keys| == 4 && keys[0].NameKey? && keys[1].SiteKey? && keys[2].SigKey? && keys[3].SigKey?
       && keys[0].text in funs && keys[1].id in funs[keys[0].text]
       && keys[2].sig in funs[keys[0].text][keys[1].id]
       && keys[3].sig in funs[keys[0].text][keys[1].id][keys[2].sig]
    then funs[keys[0].text][keys[1].id][keys[2].sig][keys[3].sig]
    else 0
  }

  // ----- what parsing an exported table adds -----

  lemma {:induction false} ParseAppend(s: State, a: seq<string>, b: seq<string>)
    ensures Parse(s, a + b) == if Parse(s, a).None? then None else Parse(Parse(s, a).value, b)
    decreases |a|
  {
    if a == [] {
      assert a + b == b;
    } else {
      assert (a + b)[1..] == a[1..] + b;
      var next := ParseLine(s, a[0]);
      hide ParseLine;
      if next.Some? { ParseAppend(next.value, a[1..], b); }
    }
  }

  /** The keys the parser is at. */
  function Current(s: State, level: nat): seq<Key>
    requires level <= 4
  {
    [NameKey(s.fun), SiteKey(s.site), SigKey(s.meth), SigKey(s.call)][..level]
  }

  /** The tables for the keys the parser is at exist. */
  ghost predicate Ready(s: State, level: nat) {
    && !s.skip && (level >= 1 ==> s.fun in s.funs) && (level >= 2 ==> HasSite(s))
    && (level >= 3 ==> HasMethod(s) && s.meth.specTypes != [])
  }

  /** Printed signatures can be read again. */
  ghost predicate Readable(p: Printer) {
    forall k :: WellFormed(p.signature(k)) && |p.signature(k).extension| != 1
  }

  lemma SignatureRead(p: Printer, c: char, key: nat)
    requires Readable(p)
    ensures ParseSignature([c] + ToString(p.signature(key))) == Some(p.signature(key))
  {
    var x := p.signature(key);
    PrintedThenParsed(c, x);
    var line := [c] + ToString(x);
    assert line == [c] + "Tuple{" + (Join(x.specTypes, ", ") + "}" + x.extension);
    assert line[1..6] == "Tuple";
  }

  /** After the lines of a key the parser is at that key, and no count has changed. */
  ghost predicate AtKey(s: State, s': State, level: nat, key: Key)
    requires level < 4
  {
    && Ready(s', level + 1) && Current(s', level + 1) == Current(s, level) + [key]
    && forall keys :: Count(s'.funs, keys) == Count(s.funs, keys)
  }

  lemma OneLine(s: State, line: string)
    ensures Parse(s, [line]) == ParseLine(s, line)
  {
    var lines := [line];
    assert lines[1..] == [];
  }

  lemma NameRead(p: Printer, s: State, key: nat)
    requires !s.skip
    ensures var r := Parse(s, KeyLines(p, 0, key)); r.Some? && AtKey(s, r.value, 0, NameKey(p.name(key)))
  {
    var lines := KeyLines(p, 0, key);
    var name := p.name(key);
    var quoted := "Symbol(\"" + name + "\")";
    assert quoted[..6] == "Symbol" && quoted[8..|quoted| - 2] == name && quoted[0] == 'S';
    assert (":" + name)[1..] == name;
    assert lines[1..] == [lines[1]];
    OneLine(s, lines[1]);
    var s' := ParseName(s, name);
    assert ParseLine(s, lines[1]) == Some(s');
    assert Parse(s, lines) == Some(s');
    forall keys ensures Count(s'.funs, keys) == Count(s.funs, keys) {}
  }

  lemma SiteRead(p: Printer, s: State, key: nat)
    requires Ready(s, 1) && key < UINT32
    ensures var r := Parse(s, KeyLines(p, 1, key)); r.Some? && AtKey(s, r.value, 1, SiteKey(key))
  {
    var line := "*" + Decimal(key);
    DecimalRead(key);
    assert line[1..] == Decimal(key);
    OneLine(s, line);
    var s' := s.(site := key);
    s' := if HasSite(s') then s' else s'.(funs := SetMethods(s', map[]));
    assert ParseLine(s, line) == Some(s');
    forall keys ensures Count(s'.funs, keys) == Count(s.funs, keys) {}
  }

  lemma MethodRead(p: Printer, s: State, key: nat)
    requires Ready(s, 2) && Readable(p)
    ensures var r := Parse(s, KeyLines(p, 2, key)); r.Some? && AtKey(s, r.value, 2, SigKey(p.signature(key)))
  {
    hide AllArguments, ToString;
    var line := "$" + ToString(p.signature(key));
    SignatureRead(p, '$', key);
    OneLine(s, line);
    var s' := s.(meth := p.signature(key));
    s' := if HasMethod(s') then s' else s'.(funs := SetMethods(s', s'.funs[s'.fun][s'.site][s'.meth := map[]]));
    assert ParseLine(s, line) == Some(s');
    forall keys ensures Count(s'.funs, keys) == Count(s.funs, keys) {}
  }

  lemma CallRead(p: Printer, s: State, key: nat)
    requires Ready(s, 3) && Readable(p)
    ensures var r := Parse(s, KeyLines(p, 3, key)); r.Some? && AtKey(s, r.value, 3, SigKey(p.signature(key)))
  {
    hide AllArguments;
    var line := " " + ToString(p.signature(key));
    SignatureRead(p, ' ', key);
    OneLine(s, line);
    assert ParseLine(s, line) == Some(s.(call := p.signature(key)));
  }

  /** A count adds to the call the parser is at, and to no other. */
  lemma CountRead(s: State, n: nat)
    requires Ready(s, 4)
    ensures var r := Parse(s, [Decimal(n)]);
            && r.Some? && Ready(r.value, 4) && Current(r.value, 4) == Current(s, 4)
            && forall keys :: Count(r.value.funs, keys) == Count(s.funs, keys) + if keys == Current(s, 4) then n else 0
  {
    DecimalRead(n);
    var line := Decimal(n);
    OneLine(s, line);
    var calls := s.funs[s.fun][s.site][s.meth];
    var count := (if s.call in calls then calls[s.call] else 0) + n;
    var s' := s.(funs := SetMethods(s, s.funs[s.fun][s.site][s.meth := calls[s.call := count]]));
    assert ParseLine(s, line) == Some(s');
    var here := Current(s, 4);
    forall keys ensures Count(s'.funs, keys) == Count(s.funs, keys) + if keys == here then n else 0 {
      if |keys| == 4 && keys[0] == here[0] && keys[1] == here[1] && keys[2] == here[2] && keys[3] == here[3] {
        assert keys == here;
      }
    }
  }

  /** Call sites are 32-bit words. */
  predicate Fits(t: Node, level: nat)
    decreases t
  {
    t.Table? && level <= 1 ==>
      forall i :: 0 <= i < |t.entries| ==>
        (level == 1 ==> t.entries[i].key < UINT32) && (level == 0 ==> Fits(t.entries[i].node, 1))
  }

  lemma KeyRead(p: Printer, s: State, level: nat, key: nat)
    requires level < 4 && Ready(s, level) && Readable(p) && (level == 1 ==> key < UINT32)
    ensures var r := Parse(s, KeyLines(p, level, key)); r.Some? && AtKey(s, r.value, level, Shown(p, level, key))
  {
    if level == 0 { NameRead(p, s, key); }
    else if level == 1 { SiteRead(p, s, key); }
    else if level == 2 { MethodRead(p, s, key); }
    else { CallRead(p, s, key); }
  }

  /** What has been parsed adds the tallies of `t` to the counts below the keys the parser is at. */
  ghost predicate Adds(p: Printer, s: State, s': State, level: nat, t: Node)
    requires level <= 4
  {
    && Ready(s', level) && Current(s', level) == Current(s, level)
    && forall keys :: |keys| == 4 ==>
         Count(s'.funs, keys) ==
         Count(s.funs, keys) + if keys[..level] == Current(s, level) then Tally(p, t, level, keys[level..]) else 0
  }

  lemma KeyThenChild(p: Printer, s: State, s1: State, s2: State, s3: State, level: nat, entries: seq<Entry>)
    requires level < 4 && entries != [] && AtKey(s, s1, level, Shown(p, level, entries[0].key))
    requires Adds(p, s1, s2, level + 1, entries[0].node)
    requires Adds(p, s2, s3, level, Table(entries[1..]))
    ensures Adds(p, s, s3, level, Table(entries))
  {
    hide Count, Tally, Shown, Ready, Current;
    var key := Shown(p, level, entries[0].key);
    CurrentShorter(s, s1, s2, level, key);
    AtKeyReady(s, s1, level, key);
    AddsReady(p, s1, s2, level, entries[0].node);
    forall keys | |keys| == 4
      ensures Count(s3.funs, keys) == Count(s.funs, keys) +
                if keys[..level] == Current(s, level) then Tally(p, Table(entries), level, keys[level..]) else 0
    {
      KeysSplit(keys, level, Current(s, level), key);
      TallyStep(p, entries, level, keys[level..]);
    }
  }

  lemma KeysSplit(keys: seq<Key>, level: nat, cur: seq<Key>, key: Key)
    requires |keys| == 4 && level < 4 && |cur| == level
    ensures keys[..level + 1] == cur + [key] <==> keys[..level] == cur && keys[level] == key
    ensures keys[level..] != [] && keys[level..][0] == keys[level] && keys[level..][1..] == keys[level + 1..]
  {
    assert keys[..level + 1] == keys[..level] + [keys[level]];
  }

  lemma TallyStep(p: Printer, entries: seq<Entry>, level: nat, keys: seq<Key>)
    requires entries != [] && keys != []
    ensures Tally(p, Table(entries), level, keys) == Tally(p, Table(entries[1..]), level, keys) +
              if Shown(p, level, entries[0].key) == keys[0] then Tally(p, entries[0].node, level + 1, keys[1..]) else 0
  {
  }

  lemma CurrentShorter(s: State, s1: State, s2: State, level: nat, key: Key)
    requires level < 4 && Current(s1, level + 1) == Current(s, level) + [key]
    requires Current(s2, level + 1) == Current(s1, level + 1)
    ensures Current(s2, level) == Current(s, level) && |Current(s, level)| == level
  {
    assert Current(s2, level) == Current(s2, level + 1)[..level];
    assert (Current(s, level) + [key])[..level] == Current(s, level);
  }

  /** Parsing the lines of a table adds exactly the table's tallies. */
  lemma {:induction false} ExportRead(p: Printer, t: Node, level: nat, s: State)
    requires level <= 4 && Readable(p) && Deep(t, 4 - level) && Fits(t, level) && Ready(s, level)
    ensures var r := Parse(s, Export(p, t, level)); r.Some? && Adds(p, s, r.value, level, t)
    decreases 4 - level, 1, 0
  {
    hide Ready, Current, Count, Decimal, ParseLine, Readable;
    match t
    case Counter(n) =>
      CountRead(s, n);
      var r := Parse(s, [Decimal(n)]).value;
      WholeKeys(s);
      assert forall keys: seq<Key> :: |keys| == 4 ==> keys[..4] == keys && keys[4..] == [];
    case Table(entries) =>
      EntriesRead(p, entries, level, s);
  }

  lemma WholeKeys(s: State)
    ensures |Current(s, 4)| == 4
  {
  }

  lemma {:induction false} EntriesRead(p: Printer, entries: seq<Entry>, level: nat, s: State)
    requires level < 4 && Readable(p) && Fits(Table(entries), level) && Ready(s, level)
    requires forall i :: 0 <= i < |entries| ==> Deep(entries[i].node, 3 - level)
    ensures var r := Parse(s, ExportEntries(p, entries, level));
            r.Some? && Adds(p, s, r.value, level, Table(entries))
    decreases 4 - level, 0, |entries|
  {
    hide Ready, Current, Count, ParseLine, Readable, KeyLines, Tally, Adds, AtKey;
    if entries == [] {
      NothingAdded(p, s, level);
    } else {
      var first, rest := entries[0], entries[1..];
      var a, b, c := KeyLines(p, level, first.key), Export(p, first.node, level + 1), ExportEntries(p, rest, level);
      KeyRead(p, s, level, first.key);
      var s1 := Parse(s, a).value;
      AtKeyReady(s, s1, level, Shown(p, level, first.key));
      assert Fits(first.node, level + 1) && Fits(Table(rest), level);
      ExportRead(p, first.node, level + 1, s1);
      var s2 := Parse(s1, b).value;
      AddsReady(p, s1, s2, level, first.node);
      EntriesRead(p, rest, level, s2);
      ParseAppend(s, a, b + c);
      ParseAppend(s1, b, c);
      KeyThenChild(p, s, s1, s2, Parse(s2, c).value, level, entries);
    }
  }

  lemma AtKeyReady(s: State, s': State, level: nat, key: Key)
    requires level < 4 && AtKey(s, s', level, key)
    ensures Ready(s', level + 1)
  {
  }

  lemma AddsReady(p: Printer, s: State, s': State, level: nat, t: Node)
    requires level < 4 && Adds(p, s, s', level + 1, t)
    ensures Ready(s', level)
  {
  }

  lemma NothingAdded(p: Printer, s: State, level: nat)
    requires level < 4 && Ready(s, level)
    ensures Adds(p, s, s, level, Table([]))
  {
  }

  // ----- from calls to tables -----

  lemma {:induction false} RecordFits(t: Node, path: seq<nat>)
    requires |path| == 4 && path[1] < UINT32 && Fits(t, 0) && Deep(t, 4)
    ensures Fits(Record(t, path), 0)
  {
    FunctionFits(t.entries, path);
  }

  lemma {:induction false} FunctionFits(entries: seq<Entry>, path: seq<nat>)
    requires |path| == 4 && path[1] < UINT32
    requires forall i :: 0 <= i < |entries| ==> Fits(entries[i].node, 1) && entries[i].node.Table?
    ensures forall i :: 0 <= i < |RecordIn(entries, path)| ==> Fits(RecordIn(entries, path)[i].node, 1)
    decreases |entries|
  {
    if entries == [] {
      SiteFits([], path[1..]);
      assert Fresh(3) == Table([]) && Fits(Record(Table([]), path[1..]), 1);
    } else if entries[0].key == path[0] {
      SiteFits(entries[0].node.entries, path[1..]);
      assert Fits(Record(entries[0].node, path[1..]), 1);
    } else {
      FunctionFits(entries[1..], path);
    }
  }

  lemma {:induction false} SiteFits(entries: seq<Entry>, path: seq<nat>)
    requires path != [] && path[0] < UINT32 && forall i :: 0 <= i < |entries| ==> entries[i].key < UINT32
    ensures forall i :: 0 <= i < |RecordIn(entries, path)| ==> RecordIn(entries, path)[i].key < UINT32
    decreases |entries|
  {
    if entries != [] && entries[0].key != path[0] { SiteFits(entries[1..], path); }
  }

  lemma {:induction false} RecordedFits(p: Printer, events: seq<seq<nat>>)
    requires forall i :: 0 <= i < |events| ==> |events[i]| == 4 && events[i][1] < UINT32
    ensures Fits(RecordAll(events), 0) && Deep(RecordAll(events), 4)
  {
    var keys := [NameKey(""), SiteKey(0), SigKey(Sig([], "")), SigKey(Sig([], ""))];
    RecordedIsSeen(p, events, keys);
    if events != [] {
      var n := |events| - 1;
      RecordedFits(p, events[..n]);
      RecordFits(RecordAll(events[..n]), events[n]);
    }
  }

  /**
    Recording any calls, exporting the tables and parsing the log succeeds, and gives for every printed function,
    call site, method and call the number of calls that are printed so.
  */
  lemma LogIsRead(p: Printer, events: seq<seq<nat>>)
    requires Readable(p) && forall i :: 0 <= i < |events| ==> |events[i]| == 4 && events[i][1] < UINT32
    ensures var r := Parse(START_STATE, Export(p, RecordAll(events), 0));
            r.Some? && forall keys :: |keys| == 4 ==> Count(r.value.funs, keys) == Seen(p, events, keys)
  {
    hide Tally, Export, Fits, Deep, Seen, ParseLine;
    RecordedFits(p, events);
    var t := RecordAll(events);
    ExportRead(p, t, 0, START_STATE);
    var r := Parse(START_STATE, Export(p, t, 0)).value;
    forall keys | |keys| == 4 ensures Count(r.funs, keys) == Seen(p, events, keys) {
      RecordedIsSeen(p, events, keys);
      assert keys[..0] == Current(START_STATE, 0) && keys[0..] == keys;
    }
  }
}
