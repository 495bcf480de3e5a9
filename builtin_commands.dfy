/**
 * The commands every application gets: `help` lists the visible commands
 * group by group, `man` looks a command up for its manual page, `fg` picks a
 * job and brings it to the foreground, and `exit` stops the jobs when asked
 * to before leaving with a fixed exit code.
 */
module BuiltinCommands {
  import opened Wrappers
  import opened PyText
  import opened CliCommand
  import opened AsyncJobs
  import ManUtils
  import Shell

  /** The code `exit` leaves the application with. */
  const ExitCommandCode: int := 222

  /** The group of the built-in commands, listed last by `help`. */
  const GroupName: string := "Built-in Commands"

  // ---------------------------------------------------------------------
  // help: the registry's entries grouped

  /** An entry `help` shows: neither an alias nor hidden. */
  predicate Listed(c: Command, ask: string -> bool) {
    !c.isAlias && !IsHidden(c.hidden, ask)
  }

  /** The group an entry is listed under: its group, or "" when it has none. */
  function GroupOf(c: Command): string {
    if c.group.Some? then c.group.value else ""
  }

  /** The shown entries of group `g`, in registry order: the list `help` collects for `g`. */
  function Members(entries: seq<Command>, g: string, ask: string -> bool): seq<Command> {
    if entries == [] then []
    else
      var e := entries[|entries| - 1];
      Members(entries[..|entries| - 1], g, ask) + (if Listed(e, ask) && GroupOf(e) == g then [e] else [])
  }

  /** A group's list holds exactly the shown entries of that group. */
  lemma {:induction false} MemberOf(entries: seq<Command>, g: string, ask: string -> bool, c: Command)
    ensures c in Members(entries, g, ask) <==> c in entries && Listed(c, ask) && GroupOf(c) == g
  {
    if entries != [] {
      var front := entries[..|entries| - 1];
      MemberOf(front, g, ask, c);
      assert entries == front + [entries[|entries| - 1]];
    }
  }

  lemma MembersStep(entries: seq<Command>, i: nat, g: string, ask: string -> bool)
    requires i < |entries|
    ensures Members(entries[..i + 1], g, ask)
            == Members(entries[..i], g, ask) + (if Listed(entries[i], ask) && GroupOf(entries[i]) == g then [entries[i]] else [])
  {
    assert entries[..i + 1][..i] == entries[..i];
  }

  /** The groups of the shown entries in the order they first appear: the keys of the ordered dictionary. */
  function GroupOrder(entries: seq<Command>, ask: string -> bool): seq<string> {
    if entries == [] then []
    else
      var e := entries[|entries| - 1];
      var o := GroupOrder(entries[..|entries| - 1], ask);
      if Listed(e, ask) && GroupOf(e) !in o then o + [GroupOf(e)] else o
  }

  /** A group is a key exactly when it has a shown entry. */
  lemma {:induction false} InOrder(entries: seq<Command>, ask: string -> bool, g: string)
    ensures g in GroupOrder(entries, ask) <==> Members(entries, g, ask) != []
  {
    if entries != [] {
      InOrder(entries[..|entries| - 1], ask, g);
    }
  }

  lemma GroupOrderStep(entries: seq<Command>, i: nat, ask: string -> bool)
    requires i < |entries|
    ensures GroupOrder(entries[..i + 1], ask)
            == var o := GroupOrder(entries[..i], ask);
               if Listed(entries[i], ask) && GroupOf(entries[i]) !in o then o + [GroupOf(entries[i])] else o
  {
    assert entries[..i + 1][..i] == entries[..i];
  }

  /** The keys left once one is popped. */
  function Without(keys: seq<string>, x: string): (r: seq<string>)
    ensures forall y :: y in r <==> y in keys && y != x
  {
    if keys == [] then []
    else
      assert keys == [keys[0]] + keys[1..];
      (if keys[0] == x then [] else [keys[0]]) + Without(keys[1..], x)
  }

  /** `sorted(keys)` of a dictionary's keys, which are distinct. */
  function SortKeys(keys: seq<string>): (r: seq<string>)
    ensures StrictlySorted(r)
    ensures forall y :: y in r <==> y in keys
  {
    if keys == [] then []
    else
      var x := keys[|keys| - 1];
      var t := SortKeys(keys[..|keys| - 1]);
      assert keys == keys[..|keys| - 1] + [x];
      if x in t then t else InsertSorted(t, x)
  }

  /** The groups `help` lists before the built-in one, in the order it lists them. */
  function Keys(entries: seq<Command>, ask: string -> bool): seq<string> {
    SortKeys(Without(GroupOrder(entries, ask), GroupName))
  }

  /** No entry's name sorts before an earlier entry's name. */
  predicate ByName(s: seq<Command>) {
    forall i, j :: 0 <= i < j < |s| ==> !LexLess(s[j].name, s[i].name)
  }

  /** Puts `c` after every entry whose name does not sort after its own. */
  function InsertByName(s: seq<Command>, c: Command): seq<Command> {
    if s == [] then [c]
    else if LexLess(c.name, s[0].name) then [c] + s
    else [s[0]] + InsertByName(s[1..], c)
  }

  /** Inserting adds exactly `c`. */
  lemma {:induction false} InsertKeeps(s: seq<Command>, c: Command)
    ensures multiset(InsertByName(s, c)) == multiset(s) + multiset{c}
  {
    if s != [] && !LexLess(c.name, s[0].name) {
      InsertKeeps(s[1..], c);
      assert s == [s[0]] + s[1..];
    }
  }

  /** A head that sorts no later than any entry of a sorted tail keeps it sorted. */
  lemma ConsByName(h: Command, t: seq<Command>)
    requires ByName(t) && forall k :: 0 <= k < |t| ==> !LexLess(t[k].name, h.name)
    ensures ByName([h] + t)
  {
    forall i, j | 0 <= i < j < |[h] + t| ensures !LexLess(([h] + t)[j].name, ([h] + t)[i].name) {
      if i > 0 {
        assert ([h] + t)[i] == t[i - 1] && ([h] + t)[j] == t[j - 1];
      } else {
        assert ([h] + t)[j] == t[j - 1];
      }
    }
  }

  /** Inserting into a list sorted by name keeps it sorted and adds exactly `c`. */
  lemma {:induction false} InsertSorts(s: seq<Command>, c: Command)
    requires ByName(s)
    ensures ByName(InsertByName(s, c))
    ensures multiset(InsertByName(s, c)) == multiset(s) + multiset{c}
  {
    InsertKeeps(s, c);
    if s == [] {
    } else if LexLess(c.name, s[0].name) {
      forall j | 0 <= j < |s| ensures !LexLess(s[j].name, c.name) {
        if LexLess(s[j].name, c.name) {
          LexTransitive(s[j].name, c.name, s[0].name);
          LexIrreflexive(s[0].name);
        }
      }
      ConsByName(c, s);
    } else {
      var rest := s[1..];
      var t := InsertByName(rest, c);
      InsertSorts(rest, c);
      forall k | 0 <= k < |t| ensures !LexLess(t[k].name, s[0].name) {
        assert t[k] in multiset(t);
        if t[k] != c {
          assert t[k] in multiset(rest);
          var j :| 0 <= j < |rest| && rest[j] == t[k];
          assert s[j + 1] == t[k];
        }
      }
      ConsByName(s[0], t);
    }
  }

  /** `sorted(entries, key=attrgetter('name'))`: a stable sort by name. */
  function SortByName(s: seq<Command>): seq<Command> {
    if s == [] then [] else InsertByName(SortByName(s[..|s| - 1]), s[|s| - 1])
  }

  /** The sort orders the entries by name and keeps exactly the entries it is given. */
  lemma {:induction false} SortSorts(s: seq<Command>)
    ensures ByName(SortByName(s))
    ensures multiset(SortByName(s)) == multiset(s)
  {
    if s != [] {
      SortSorts(s[..|s| - 1]);
      InsertSorts(SortByName(s[..|s| - 1]), s[|s| - 1]);
      assert s == s[..|s| - 1] + [s[|s| - 1]];
    }
  }

  /** `'%s\n%s' % (title, '-' * len(title))`. */
  function Underlined(title: string): string {
    title + "\n" + Repeat('-', |title|)
  }

  /** `'%s' % value` of an optional string. */
  function Shown(o: Option<string>): string {
    if o.Some? then o.value else "None"
  }

  /** `'%s - %s' % (name, docstring.short_description)`. */
  function EntryLine(c: Command): string {
    c.name + " - " + Shown(c.func.doc.shortDescription)
  }

  function EntryLines(cs: seq<Command>): seq<string> {
    if cs == [] then [] else EntryLines(cs[..|cs| - 1]) + [EntryLine(cs[|cs| - 1])]
  }

  /** One line per entry, in the entries' order. */
  lemma {:induction false} EntryLinesAt(cs: seq<Command>)
    ensures |EntryLines(cs)| == |cs|
    ensures forall k :: 0 <= k < |cs| ==> EntryLines(cs)[k] == EntryLine(cs[k])
  {
    if cs != [] {
      EntryLinesAt(cs[..|cs| - 1]);
    }
  }

  /** What `help` prints for one group: its underlined name unless it is "", then its entries by name. */
  function GroupBlock(g: string, members: seq<Command>): seq<string> {
    (if g != "" then [Underlined(g)] else []) + EntryLines(SortByName(members))
  }

  /** The blocks of the groups in `keys`, in that order. */
  function Blocks(keys: seq<string>, entries: seq<Command>, ask: string -> bool): seq<string> {
    if keys == [] then []
    else
      var g := keys[|keys| - 1];
      Blocks(keys[..|keys| - 1], entries, ask) + GroupBlock(g, Members(entries, g, ask))
  }

  /** The built-in entries' lines, skipping an alias or a hidden entry once more. */
  function BuiltinLines(cs: seq<Command>, ask: string -> bool): seq<string> {
    if cs == [] then []
    else
      var c := cs[|cs| - 1];
      BuiltinLines(cs[..|cs| - 1], ask) + (if Listed(c, ask) then [EntryLine(c)] else [])
  }

  const Title: string := "Available Commands:"

  /**
   * Everything `help` prints, one string per `print` call: the title and an
   * empty line, the blocks of the other groups, an empty line, the underlined
   * built-in group name and the built-in entries.
   */
  function HelpOutput(entries: seq<Command>, ask: string -> bool): seq<string> {
    [Title, ""] + Blocks(Keys(entries, ask), entries, ask) + ["", Underlined(GroupName)]
    + BuiltinLines(SortByName(Members(entries, GroupName, ask)), ask)
  }

  lemma Regroup(a: seq<string>, b: seq<string>, c: seq<string>)
    ensures (a + b) + c == a + (b + c)
  {
  }

  /** The loop that prints one group. */
  method PrintGroup(out: seq<string>, g: string, members: seq<Command>) returns (r: seq<string>)
    ensures r == out + GroupBlock(g, members)
  {
    var header: seq<string> := if g != "" then [Underlined(g)] else [];
    r := out + header;
    var sorted := SortByName(members);
    for k := 0 to |sorted|
      invariant r == out + header + EntryLines(sorted[..k])
    {
      assert sorted[..k + 1][..k] == sorted[..k];
      Regroup(out + header, EntryLines(sorted[..k]), [EntryLine(sorted[k])]);
      r := r + [EntryLine(sorted[k])];
    }
    assert sorted[..|sorted|] == sorted;
    Regroup(out, header, EntryLines(sorted));
  }

  /**
   * The first loop of `command_help`: every entry that is neither an alias nor
   * hidden is appended to the list of its group, a group entering the ordered
   * dictionary when its first entry does.
   */
  method CollectGroups(entries: seq<Command>, ask: string -> bool)
    returns (groups: map<string, seq<Command>>, order: seq<string>)
    ensures order == GroupOrder(entries, ask)
    ensures forall g :: g in groups <==> g in order
    ensures forall g :: g in groups ==> groups[g] == Members(entries, g, ask)
  {
    groups := map[];
    order := [];
    for i := 0 to |entries|
      invariant order == GroupOrder(entries[..i], ask)
      invariant forall g :: g in groups <==> g in order
      invariant forall g :: g in groups ==> groups[g] == Members(entries[..i], g, ask)
    {
      GroupOrderStep(entries, i, ask);
      forall g ensures Members(entries[..i + 1], g, ask)
                       == Members(entries[..i], g, ask) + (if Listed(entries[i], ask) && GroupOf(entries[i]) == g then [entries[i]] else []) {
        MembersStep(entries, i, g, ask);
      }
      var e := entries[i];
      if e.isAlias || IsHidden(e.hidden, ask) {
        continue;
      }
      var g := if e.group.Some? then e.group.value else "";
      if g !in groups {
        InOrder(entries[..i], ask, g);
        groups := groups[g := []];
        order := order + [g];
      }
      groups := groups[g := groups[g] + [e]];
    }
    assert entries[..|entries|] == entries;
  }

  /**
   * `command_help`, given the registry's entries in order and the oracle that
   * answers hidden predicates: collects the shown entries by group, pops the
   * built-in group, prints the other groups sorted, then the built-in one.
   */
  method CommandHelp(entries: seq<Command>, ask: string -> bool) returns (out: seq<string>)
    ensures out == HelpOutput(entries, ask)
  {
    out := [Title, ""];
    var groups, order := CollectGroups(entries, ask);
    InOrder(entries, ask, GroupName);
    var builtins := if GroupName in groups then groups[GroupName] else [];
    groups := groups - {GroupName};
    order := Without(order, GroupName);
    out := PrintGroups(out, SortKeys(order), groups, entries, ask);
    out := out + ["", Underlined(GroupName)];
    out := PrintBuiltins(out, SortByName(builtins), ask);
  }

  /** The loop over the sorted groups other than the built-in one. */
  method PrintGroups(out: seq<string>, keys: seq<string>, groups: map<string, seq<Command>>,
                     ghost entries: seq<Command>, ghost ask: string -> bool) returns (r: seq<string>)
    requires forall g :: g in keys ==> g in groups && groups[g] == Members(entries, g, ask)
    ensures r == out + Blocks(keys, entries, ask)
  {
    r := out;
    for j := 0 to |keys|
      invariant r == out + Blocks(keys[..j], entries, ask)
    {
      assert keys[..j + 1][..j] == keys[..j];
      assert keys[j] in keys;
      Regroup(out, Blocks(keys[..j], entries, ask), GroupBlock(keys[j], groups[keys[j]]));
      r := PrintGroup(r, keys[j], groups[keys[j]]);
    }
    assert keys[..|keys|] == keys;
  }

  /** The loop over the built-in group, which skips an alias or a hidden entry once more. */
  method PrintBuiltins(out: seq<string>, sorted: seq<Command>, ask: string -> bool) returns (r: seq<string>)
    ensures r == out + BuiltinLines(sorted, ask)
  {
    r := out;
    for k := 0 to |sorted|
      invariant r == out + BuiltinLines(sorted[..k], ask)
    {
      assert sorted[..k + 1][..k] == sorted[..k];
      var c := sorted[k];
      if c.isAlias || IsHidden(c.hidden, ask) {
        continue;
      }
      Regroup(out, BuiltinLines(sorted[..k], ask), [EntryLine(c)]);
      r := r + [EntryLine(c)];
    }
    assert sorted[..|sorted|] == sorted;
  }

  // ---------------------------------------------------------------------
  // help: what the output promises

  /** The other groups are listed once each, sorted, and are exactly the groups of shown non-built-in entries. */
  lemma KeysListGroups(entries: seq<Command>, ask: string -> bool)
    ensures StrictlySorted(Keys(entries, ask))
    ensures forall g :: g in Keys(entries, ask) <==> g != GroupName && exists c :: c in entries && Listed(c, ask) && GroupOf(c) == g
  {
    forall g ensures g in Keys(entries, ask) <==> g != GroupName && exists c :: c in entries && Listed(c, ask) && GroupOf(c) == g {
      InOrder(entries, ask, g);
      if g != GroupName && exists c :: c in entries && Listed(c, ask) && GroupOf(c) == g {
        var c :| c in entries && Listed(c, ask) && GroupOf(c) == g;
        MemberOf(entries, g, ask, c);
      }
      if Members(entries, g, ask) != [] {
        MemberOf(entries, g, ask, Members(entries, g, ask)[0]);
      }
    }
  }

  /** The second skip in the built-in loop never fires: the built-in group holds only shown entries. */
  lemma {:induction false} BuiltinsAllShown(cs: seq<Command>, ask: string -> bool)
    requires forall c :: c in cs ==> Listed(c, ask)
    ensures BuiltinLines(cs, ask) == EntryLines(cs)
  {
    if cs != [] {
      BuiltinsAllShown(cs[..|cs| - 1], ask);
    }
  }

  /** After an empty line, the built-in group is printed last, like any other named group. */
  lemma HelpEndsWithBuiltins(entries: seq<Command>, ask: string -> bool)
    ensures HelpOutput(entries, ask)
            == [Title, ""] + Blocks(Keys(entries, ask), entries, ask) + [""]
               + GroupBlock(GroupName, Members(entries, GroupName, ask))
  {
    var ms := Members(entries, GroupName, ask);
    var b := SortByName(ms);
    SortSorts(ms);
    forall c | c in b ensures Listed(c, ask) {
      assert c in multiset(b);
      MemberOf(entries, GroupName, ask, c);
    }
    BuiltinsAllShown(b, ask);
    var front := [Title, ""] + Blocks(Keys(entries, ask), entries, ask);
    Regroup(front, [""], [Underlined(GroupName)]);
    Regroup(front + [""], [Underlined(GroupName)], EntryLines(b));
  }

  /** A line printed for a shown entry. */
  predicate IsEntryLine(line: string, entries: seq<Command>, ask: string -> bool) {
    exists c :: c in entries && Listed(c, ask) && line == EntryLine(c)
  }

  /** A header printed for one of the named groups in `keys`. */
  predicate IsHeader(line: string, keys: seq<string>) {
    exists g :: g in keys && g != "" && line == Underlined(g)
  }

  /** A group's block holds its header, when it has a name, and lines of its shown entries. */
  lemma BlockLines(g: string, entries: seq<Command>, ask: string -> bool)
    ensures forall line :: line in GroupBlock(g, Members(entries, g, ask)) ==>
              (g != "" && line == Underlined(g)) || IsEntryLine(line, entries, ask)
  {
    var ms := Members(entries, g, ask);
    var sorted := SortByName(ms);
    SortSorts(ms);
    EntryLinesAt(sorted);
    forall line | line in EntryLines(sorted) ensures IsEntryLine(line, entries, ask) {
      var k :| 0 <= k < |sorted| && EntryLines(sorted)[k] == line;
      assert sorted[k] in multiset(ms);
      MemberOf(entries, g, ask, sorted[k]);
    }
  }

  /** Each shown entry of a group has its line in the group's block. */
  lemma ShownInBlock(g: string, entries: seq<Command>, ask: string -> bool, c: Command)
    requires c in entries && Listed(c, ask) && GroupOf(c) == g
    ensures EntryLine(c) in GroupBlock(g, Members(entries, g, ask))
  {
    var ms := Members(entries, g, ask);
    var sorted := SortByName(ms);
    SortSorts(ms);
    EntryLinesAt(sorted);
    MemberOf(entries, g, ask, c);
    assert c in multiset(sorted);
    var k :| 0 <= k < |sorted| && sorted[k] == c;
    assert EntryLines(sorted)[k] == EntryLine(c);
  }

  /** Every line of the blocks is the header of a named group in `keys` or the line of a shown entry. */
  lemma {:induction false} BlocksOnlyListed(keys: seq<string>, entries: seq<Command>, ask: string -> bool)
    ensures forall line :: line in Blocks(keys, entries, ask) ==> IsHeader(line, keys) || IsEntryLine(line, entries, ask)
  {
    if keys != [] {
      var g := keys[|keys| - 1];
      var front := keys[..|keys| - 1];
      BlocksOnlyListed(front, entries, ask);
      BlockLines(g, entries, ask);
      assert keys == front + [g];
      forall line | line in Blocks(keys, entries, ask) ensures IsHeader(line, keys) || IsEntryLine(line, entries, ask) {
        if line in Blocks(front, entries, ask) {
          if IsHeader(line, front) {
            var h :| h in front && h != "" && line == Underlined(h);
            assert h in keys;
          }
        } else if !IsEntryLine(line, entries, ask) {
          assert g in keys;
        }
      }
    }
  }

  /** The blocks show the line of every shown entry whose group is in `keys`. */
  lemma {:induction false} BlocksShowListed(keys: seq<string>, entries: seq<Command>, ask: string -> bool)
    ensures forall c :: c in entries && Listed(c, ask) && GroupOf(c) in keys ==> EntryLine(c) in Blocks(keys, entries, ask)
  {
    if keys != [] {
      var g := keys[|keys| - 1];
      var front := keys[..|keys| - 1];
      BlocksShowListed(front, entries, ask);
      assert keys == front + [g];
      forall c | c in entries && Listed(c, ask) && GroupOf(c) in keys ensures EntryLine(c) in Blocks(keys, entries, ask) {
        if GroupOf(c) !in front {
          ShownInBlock(g, entries, ask, c);
        }
      }
    }
  }

  /** `help` shows the line of every entry that is neither an alias nor hidden. */
  lemma HelpShowsEveryListed(entries: seq<Command>, ask: string -> bool, c: Command)
    requires c in entries && Listed(c, ask)
    ensures EntryLine(c) in HelpOutput(entries, ask)
  {
    HelpEndsWithBuiltins(entries, ask);
    if GroupOf(c) == GroupName {
      ShownInBlock(GroupName, entries, ask, c);
    } else {
      KeysListGroups(entries, ask);
      BlocksShowListed(Keys(entries, ask), entries, ask);
    }
  }

  /**
   * `help` shows nothing else: each line is the title, an empty line, the
   * header of the built-in group or of a named group with a shown entry, or
   * the line of an entry that is neither an alias nor hidden.
   */
  lemma HelpShowsOnlyListed(entries: seq<Command>, ask: string -> bool, line: string)
    requires line in HelpOutput(entries, ask)
    ensures line == Title || line == "" || line == Underlined(GroupName)
            || IsHeader(line, Keys(entries, ask)) || IsEntryLine(line, entries, ask)
  {
    HelpEndsWithBuiltins(entries, ask);
    BlocksOnlyListed(Keys(entries, ask), entries, ask);
    BlockLines(GroupName, entries, ask);
  }

  // ---------------------------------------------------------------------
  // man

  /** `man_commands`: the registry's names that are not aliases. */
  function ManCommands(commands: map<string, Command>): (r: set<string>)
    ensures r <= commands.Keys
    ensures forall name :: name in r <==> name in commands && !commands[name].isAlias
  {
    set name | name in commands && !commands[name].isAlias
  }

  /**
   * Registering under distinct names offers the primary name for `man` and
   * none of the aliases; every other offered name stays.
   */
  lemma ManCommandsRegister(r: map<string, Command>, reg: Registration, names: seq<string>)
    requires |names| >= 1 && Distinct(names)
    ensures forall name :: name in ManCommands(Expand(r, reg, names, |names|)) <==>
              name == names[0] || (name in ManCommands(r) && name !in names)
  {
    ExpandDistinct(r, reg, names, |names|);
    assert names[..|names|] == names;
  }

  const NoManualEntry: string := "No manual entry for "

  /** `man`: the words joined by spaces name the command; a name not in the registry has no manual entry. */
  function ManLookup(commands: map<string, Command>, words: seq<string>): (r: Result<Command, string>)
    ensures r.Success? <==> Join(" ", words) in commands
    ensures r.Success? ==> r.value == commands[Join(" ", words)]
    ensures r.Failure? ==> r.error == NoManualEntry + Join(" ", words)
  {
    var name := Join(" ", words);
    if name in commands then Success(commands[name]) else Failure(NoManualEntry + name)
  }

  /** Every name the completer offers opens a manual page, for a command that is not an alias. */
  lemma ManFindsOffered(commands: map<string, Command>, name: string)
    requires name in ManCommands(commands)
    ensures ManLookup(commands, [name]) == Success(commands[name])
    ensures !ManLookup(commands, [name]).value.isAlias
  {
  }

  /** A name typed as its space-separated words is found again, spaces and all. */
  lemma ManFindsWords(commands: map<string, Command>, name: string)
    requires name in commands
    ensures ManLookup(commands, Split(name, " ")) == Success(commands[name])
  {
    JoinSplit(name, " ");
  }

  /** The page the pager shows: the help text of the command, at the window's width. */
  function ManPage(commands: map<string, Command>, words: seq<string>, argparseUsage: string, width: int)
    : (r: Result<seq<ManUtils.Piece>, string>)
    ensures ManLookup(commands, words).Failure? ==> r == Failure(NoManualEntry + Join(" ", words))
    ensures ManLookup(commands, words).Success? ==>
              r == ManUtils.HelpText(commands[Join(" ", words)], argparseUsage, width)
  {
    match ManLookup(commands, words)
    case Failure(e) => Failure(e)
    case Success(c) => ManUtils.HelpText(c, argparseUsage, width)
  }

  // ---------------------------------------------------------------------
  // fg

  const NoJobs: string := "No running jobs found"

  function NoSuchJob(job: int): string {
    "Could not find a running job for " + IntToStr(job)
  }

  /** A non-empty set of ids has a largest member. */
  lemma HasLargest(ids: set<int>)
    ensures ids != {} ==> exists m :: m in ids && forall k :: k in ids ==> k <= m
  {
    if forall x :: x !in ids {
      assert ids == {};
    } else {
      var x :| x in ids;
      LargestFrom(ids, x);
    }
  }

  /** A set of ids holding `x` has a largest member, found by moving to a larger id while there is one. */
  lemma {:induction false} LargestFrom(ids: set<int>, x: int)
    requires x in ids
    ensures exists m :: m in ids && forall k :: k in ids ==> k <= m
    decreases |ids|
  {
    if !(forall k :: k in ids ==> k <= x) {
      var y :| y in ids && y > x;
      var rest := ids - {x};
      assert |rest| < |ids| by {
        assert ids == rest + {x};
      }
      LargestFrom(rest, y);
      var m :| m in rest && forall k :: k in rest ==> k <= m;
      Extend(ids, x, rest, m);
    }
  }

  /** Adding one id to a set with a largest member keeps a largest member. */
  lemma Extend(ids: set<int>, x: int, rest: set<int>, m: int)
    requires x in ids && rest == ids - {x} && m in rest && forall k :: k in rest ==> k <= m
    ensures exists top :: top in ids && forall k :: k in ids ==> k <= top
  {
    var top := if m < x then x else m;
    forall k | k in ids ensures k <= top {
      if k != x {
        assert k in rest;
      }
    }
  }

  /** `sorted(ids)[-1]`: the largest id. */
  function Largest(ids: set<int>): (m: int)
    requires ids != {}
    ensures m in ids && forall k :: k in ids ==> k <= m
  {
    HasLargest(ids);
    var m :| m in ids && forall k :: k in ids ==> k <= m;
    m
  }

  /**
   * The job `fg` picks: with no job given (or 0), the largest id, an error
   * when there is none; otherwise the given id, an error when it is not a job's.
   */
  function PickJob(ids: set<int>, job: Option<int>): (r: Result<int, string>)
    ensures r.Success? ==> r.value in ids
    ensures (job.None? || job.value == 0) ==>
              (ids == {} ==> r == Failure(NoJobs)) && (ids != {} ==> r.Success? && forall k :: k in ids ==> k <= r.value)
    ensures job.Some? && job.value != 0 ==>
              r == if job.value in ids then Success(job.value) else Failure(NoSuchJob(job.value))
  {
    if job.None? || job.value == 0 then
      if ids == {} then Failure(NoJobs) else Success(Largest(ids))
    else if job.value !in ids then Failure(NoSuchJob(job.value))
    else Success(job.value)
  }

  /**
   * Ids are handed out in increasing order, so with no job given `fg` picks
   * the job started last: every id in the table is below the one the new job takes.
   */
  lemma PicksNewest(ids: set<int>, next: int)
    requires forall p :: p in ids ==> p < next
    ensures PickJob(ids + {next}, None) == Success(next)
  {
  }

  /** A job started into a valid table is the one `fg` picks when no job is given. */
  method StartThenPick(table: JobTable) returns (job: AsyncCommand, pick: Result<int, string>)
    requires table.Valid()
    modifies table
    ensures table.Valid() && table.jobs == old(table.jobs)[job.jobPid := job]
    ensures pick == Success(job.jobPid)
  {
    job := new AsyncCommand(table);
    PicksNewest(old(table.jobs).Keys, job.jobPid);
    assert table.jobs.Keys == old(table.jobs).Keys + {job.jobPid};
    pick := PickJob(table.jobs.Keys, None);
  }

  /**
   * `fg`: picks the job and brings it to the foreground, `event` standing for
   * what happens while it waits; the table loses the job exactly when the
   * foreground ended it, and an error picks nothing and changes nothing.
   */
  method Fg(table: JobTable, job: Option<int>, event: WaitEvent) returns (r: Result<Foregrounded, string>)
    requires table.Valid()
    modifies table, table.jobs.Values
    ensures table.Valid()
    ensures PickJob(old(table.jobs).Keys, job).Failure? ==>
              r == Failure(PickJob(old(table.jobs).Keys, job).error) && table.jobs == old(table.jobs)
    ensures PickJob(old(table.jobs).Keys, job).Success? ==>
              var p := PickJob(old(table.jobs).Keys, job).value;
              && r.Success? && !r.value.KeyError?
              && table.jobs == if event.Interrupt? || Removes(r.value) then old(table.jobs) - {p} else old(table.jobs)
    ensures PickJob(old(table.jobs).Keys, job).Success? ==>
              var p := PickJob(old(table.jobs).Keys, job).value;
              var j := old(table.jobs)[p];
              && j.jobPid == p
              && j.waiting == !event.Suspend?
              && j.killed == (old(j.killed) || event.Interrupt?)
              && j.result == (if event.BodyEnds? && event.outcome.Returned? then event.outcome.value else old(j.result))
              && j.exception == (if event.BodyEnds? && event.outcome.Raised? && IsException(event.outcome.fault)
                                 then Some(event.outcome.fault) else old(j.exception))
              && r == Success(Decide(j.killed, j.waiting, j.exception, p, true, j.result))
  {
    var picked := PickJob(table.jobs.Keys, job);
    if picked.Failure? {
      return Failure(picked.error);
    }
    var thread := table.jobs[picked.value];
    var outcome := thread.Foreground(table, event);
    r := Success(outcome);
  }

  /**
   * A command started with `-background` and later brought back by `fg`:
   * the job the shell left behind is the one picked, and once its body
   * returns, `fg` answers that value and the job leaves the table.
   */
  method BackgroundThenFg(v: int) returns (started: Shell.CommandResult, r: Result<Foregrounded, string>, emptied: bool)
    ensures started == Shell.Threw(Shell.BackgroundedJob(1))
    ensures r == Success(Result(Some(v)))
    ensures emptied
  {
    var table := new JobTable();
    var entry := Shell.Entry(true, false, false);
    started := Shell.RunCommand(entry, Shell.Namespace(true), Returned(None), AlreadyDone, table);
    r := Fg(table, None, BodyEnds(Returned(Some(v))));
    emptied := table.jobs == map[];
  }

  // ---------------------------------------------------------------------
  // exit

  const QuitPrompt: string := "There are backgrounded jobs. Are you sure you want to quit? "

  /** `answer.lower().startswith("y")`. */
  predicate Agrees(answer: string) {
    answer != "" && ToLower(answer[0]) == 'y'
  }

  /**
   * `exit_command`: with jobs in the table and no `-abort-jobs`, the prompt is
   * asked and anything but a yes returns to the shell (`None`); otherwise
   * every job is stopped without leaving the table, the table is emptied, and
   * the application exits with `ExitCommandCode`.
   */
  method Exit(table: JobTable, abortJobs: bool, answer: string) returns (asked: bool, code: Option<int>)
    requires table.Valid()
    modifies table, table.jobs.Values
    ensures asked <==> !abortJobs && old(table.jobs) != map[]
    ensures code.None? <==> asked && !Agrees(answer)
    ensures code.None? ==> unchanged(table) && unchanged(old(table.jobs.Values))
    ensures code.Some? ==> code.value == ExitCommandCode && table.jobs == map[] && table.nextJobPid == old(table.nextJobPid)
    ensures code.Some? ==> forall j :: j in old(table.jobs.Values) ==> j.killed
    ensures code.Some? ==> forall j :: j in old(table.jobs.Values) ==>
              j.result == old(j.result) && j.exception == old(j.exception) && j.waiting == old(j.waiting)
    ensures table.Valid()
  {
    asked := false;
    var abort := abortJobs;
    if !abort && table.jobs != map[] {
      asked := true;
      if Agrees(answer) {
        abort := true;
      } else {
        return asked, None;
      }
    }
    if abort {
      ghost var all := table.jobs.Values;
      var pending := table.jobs.Values;
      while pending != {}
        invariant pending <= all && all == old(table.jobs.Values)
        invariant table.jobs == old(table.jobs) && table.nextJobPid == old(table.nextJobPid) && table.Valid()
        invariant forall j :: j in all - pending ==> j.killed
        invariant forall j :: j in all ==>
                    j.result == old(j.result) && j.exception == old(j.exception) && j.waiting == old(j.waiting)
        decreases |pending|
      {
        var job :| job in pending;
        var keyError := job.Stop(table, true);
        pending := pending - {job};
      }
      table.jobs := map[];
    }
    code := Some(ExitCommandCode);
  }

  /**
   * One job running: a "no" keeps the application and the job, a "Yes" stops
   * the job, empties the table and exits with 222.
   */
  method ExitScenario() returns (stays: Option<int>, leaves: Option<int>, keptJob: bool, killedAfter: bool, emptied: bool)
    ensures stays == None && keptJob
    ensures leaves == Some(222) && killedAfter && emptied
  {
    var table := new JobTable();
    var job := new AsyncCommand(table);
    var asked;
    asked, stays := Exit(table, false, "no");
    keptJob := job.jobPid in table.jobs && !job.killed;
    assert table.jobs[job.jobPid] == job;
    asked, leaves := Exit(table, false, "Yes");
    killedAfter := job.killed;
    emptied := table.jobs == map[];
  }
}
