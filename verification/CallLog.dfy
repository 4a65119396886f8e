/** Counting calls, printing the counts, and parsing them again. */
module CallLog {
  import opened Signatures

  // ----- recording -----

  /** Tables from identities to tables, down to counters: functions, call sites, methods, calls. */
  datatype Node = Counter(n: nat) | Table(entries: seq<Entry>)
  datatype Entry = Entry(key: nat, node: Node)

  function Fresh(levels: nat): Node {
    if levels == 0 then Counter(0) else Table([])
  }

  /** Count one more call along `path`, adding a new entry at the end of a table that has none for it. */
  function Record(t: Node, path: seq<nat>): Node
    decreases |path|, 1, 0
  {
    match t
    case Counter(n) => if path == [] then Counter(n + 1) else t
    case Table(entries) => if path == [] then t else Table(RecordIn(entries, path))
  }

  function RecordIn(entries: seq<Entry>, path: seq<nat>): seq<Entry>
    requires path != []
    decreases |path|, 0, |entries|
  {
    if entries == [] then [Entry(path[0], Record(Fresh(|path| - 1), path[1..]))]
    else if entries[0].key == path[0] then [Entry(path[0], Record(entries[0].node, path[1..]))] + entries[1..]
    else [entries[0]] + RecordIn(entries[1..], path)
  }

  function RecordAll(events: seq<seq<nat>>): Node {
    if events == [] then Table([])
    else Record(RecordAll(events[..|events| - 1]), events[|events| - 1])
  }

  /** All paths through the table are `levels` long. */
  predicate Deep(t: Node, levels: nat)
    decreases levels
  {
    match t
    case Counter(_) => levels == 0
    case Table(entries) => levels > 0 && forall i :: 0 <= i < |entries| ==> Deep(entries[i].node, levels - 1)
  }

  // ----- printed keys -----

  /** A function's name, and whether it is printed in quotes. */
  datatype Key = NameKey(text: string) | SiteKey(id: nat) | SigKey(sig: Sig)

  datatype Printer = Printer(name: nat -> string, quoted: nat -> bool, signature: nat -> Sig)

  /** How an identity at level 0, 1, 2 or 3 is printed. */
  function Shown(p: Printer, level: nat, key: nat): Key {
    if level == 0 then NameKey(p.name(key)) else if level == 1 then SiteKey(key) else SigKey(p.signature(key))
  }

  /** The count under all identities printed like `keys`. */
  function Tally(p: Printer, t: Node, level: nat, keys: seq<Key>): nat
    decreases |keys|, 1, 0
  {
    match t
    case Counter(n) => if keys == [] then n else 0
    case Table(entries) => if keys == [] then 0 else TallyIn(p, entries, level, keys)
  }

  function TallyIn(p: Printer, entries: seq<Entry>, level: nat, keys: seq<Key>): nat
    requires keys != []
    decreases |keys|, 0, |entries|
  {
    if entries == [] then 0
    else
      TallyIn(p, entries[1..], level, keys) +
      if Shown(p, level, entries[0].key) == keys[0] then Tally(p, entries[0].node, level + 1, keys[1..]) else 0
  }

  /** Whether a call along `path` is printed under `keys`. */
  predicate Matches(p: Printer, path: seq<nat>, level: nat, keys: seq<Key>) {
    |path| == |keys| && forall i :: 0 <= i < |path| ==> Shown(p, level + i, path[i]) == keys[i]
  }

  lemma {:induction false} RecordCounts(p: Printer, t: Node, path: seq<nat>, level: nat, keys: seq<Key>)
    requires Deep(t, |path|) && |keys| == |path|
    ensures Deep(Record(t, path), |path|)
    ensures Tally(p, Record(t, path), level, keys) ==
            Tally(p, t, level, keys) + if Matches(p, path, level, keys) then 1 else 0
    decreases |path|, 1, 0
  {
    if path != [] { RecordInCounts(p, t.entries, path, level, keys); }
  }

  lemma MatchesStep(p: Printer, path: seq<nat>, level: nat, keys: seq<Key>)
    requires path != [] && |keys| == |path|
    ensures Matches(p, path, level, keys) <==>
            Shown(p, level, path[0]) == keys[0] && Matches(p, path[1..], level + 1, keys[1..])
  {
    if Shown(p, level, path[0]) == keys[0] && Matches(p, path[1..], level + 1, keys[1..]) {
      forall i | 0 <= i < |path| ensures Shown(p, level + i, path[i]) == keys[i] {
        if i > 0 { assert Shown(p, level + 1 + (i - 1), path[1..][i - 1]) == keys[1..][i - 1]; }
      }
    }
    if Matches(p, path, level, keys) {
      forall i | 0 <= i < |path| - 1 ensures Shown(p, level + 1 + i, path[1..][i]) == keys[1..][i] {
        assert Shown(p, level + (i + 1), path[i + 1]) == keys[i + 1];
      }
    }
  }

  lemma {:induction false} RecordInCounts(p: Printer, entries: seq<Entry>, path: seq<nat>, level: nat, keys: seq<Key>)
    requires path != [] && |keys| == |path| && forall i :: 0 <= i < |entries| ==> Deep(entries[i].node, |path| - 1)
    ensures forall i :: 0 <= i < |RecordIn(entries, path)| ==> Deep(RecordIn(entries, path)[i].node, |path| - 1)
    ensures TallyIn(p, RecordIn(entries, path), level, keys)
         == TallyIn(p, entries, level, keys) + if Matches(p, path, level, keys) then 1 else 0
    decreases |path|, 0, |entries|
  {
    MatchesStep(p, path, level, keys);
    hide Matches, Deep;
    if entries == [] {
      FreshIsEmpty(p, |path| - 1, level + 1, keys[1..]);
      RecordCounts(p, Fresh(|path| - 1), path[1..], level + 1, keys[1..]);
    } else if entries[0].key == path[0] {
      RecordCounts(p, entries[0].node, path[1..], level + 1, keys[1..]);
      assert RecordIn(entries, path)[1..] == entries[1..];
    } else {
      RecordInCounts(p, entries[1..], path, level, keys);
      assert RecordIn(entries, path)[1..] == RecordIn(entries[1..], path);
    }
  }

  lemma FreshIsEmpty(p: Printer, levels: nat, level: nat, keys: seq<Key>)
    requires |keys| == levels
    ensures Deep(Fresh(levels), levels) && Tally(p, Fresh(levels), level, keys) == 0
  {
  }

  /** How many events are printed under `keys`. */
  function Seen(p: Printer, events: seq<seq<nat>>, keys: seq<Key>): nat {
    if events == [] then 0
    else Seen(p, events[..|events| - 1], keys) + if Matches(p, events[|events| - 1], 0, keys) then 1 else 0
  }

  /** The recorded counts add up to what was seen. */
  lemma {:induction false} RecordedIsSeen(p: Printer, events: seq<seq<nat>>, keys: seq<Key>)
    requires |keys| == 4 && forall i :: 0 <= i < |events| ==> |events[i]| == 4
    ensures Deep(RecordAll(events), 4) && Tally(p, RecordAll(events), 0, keys) == Seen(p, events, keys)
  {
    hide Matches;
    if events != [] {
      var n := |events| - 1;
      RecordedIsSeen(p, events[..n], keys);
      RecordCounts(p, RecordAll(events[..n]), events[n], 0, keys);
    }
  }
}
