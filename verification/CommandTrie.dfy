// Nested commands as values: what the command finder's dictionaries mean (commandfinder.py)
// and what its filter, common prefix and completions promise (commandcompleter.py).

module CommandTrie {

  type Path = seq<string>

  datatype Trie = Trie(children: map<string, Trie>)

  const EMPTY := Trie(map[])

  // ---------- paths and commands ----------

  predicate HasPath(t: Trie, path: Path)
    decreases |path|
  {
    path == [] || (path[0] in t.children && HasPath(t.children[path[0]], path[1..]))
  }

  function Below(t: Trie, path: Path): Trie
    requires HasPath(t, path)
    decreases |path|
  {
    if path == [] then t else Below(t.children[path[0]], path[1..])
  }

  // A command is a path that ends where nothing follows.
  predicate IsCommand(t: Trie, path: Path) {
    path != [] && HasPath(t, path) && Below(t, path) == EMPTY
  }

  lemma {:induction false} PathConcat(t: Trie, p: Path, q: Path)
    ensures HasPath(t, p + q) <==> HasPath(t, p) && HasPath(Below(t, p), q)
    ensures HasPath(t, p + q) ==> Below(t, p + q) == Below(Below(t, p), q)
    decreases |p|
  {
    if p == [] {
      assert p + q == q;
    } else {
      assert (p + q)[1..] == p[1..] + q;
      if p[0] in t.children {
        PathConcat(t.children[p[0]], p[1..], q);
      }
    }
  }

  lemma OnlyTheEmptyPath(p: Path)
    ensures HasPath(EMPTY, p) <==> p == []
  {
  }

  lemma PathPrefix(t: Trie, p: Path, q: Path)
    requires p <= q && HasPath(t, q)
    ensures HasPath(t, p)
  {
    assert q == p + q[|p|..];
    PathConcat(t, p, q[|p|..]);
  }

  lemma PathStep(t: Trie, p: Path, word: string)
    requires HasPath(t, p)
    ensures HasPath(t, p + [word]) <==> word in Below(t, p).children
  {
    PathConcat(t, p, [word]);
  }

  // Every path leads to a command.
  lemma {:induction false} PathExtends(t: Trie, path: Path) returns (command: Path)
    requires HasPath(t, path) && (path != [] || t != EMPTY)
    ensures path <= command && IsCommand(t, command)
    decreases Below(t, path)
  {
    var end := Below(t, path);
    if end == EMPTY {
      command := path;
    } else {
      var word: string :| word in end.children;
      PathConcat(t, path, [word]);
      assert Below(end, [word]) == end.children[word];
      command := PathExtends(t, path + [word]);
    }
  }

  // ---------- adding a command ----------

  function Added(t: Trie, path: Path): Trie
    decreases |path|
  {
    if path == [] then t
    else
      var child := if path[0] in t.children then t.children[path[0]] else EMPTY;
      Trie(t.children[path[0] := Added(child, path[1..])])
  }

  lemma {:induction false} AddedPaths(t: Trie, path: Path, p: Path)
    ensures HasPath(Added(t, path), p) <==> HasPath(t, p) || p <= path
    decreases |path|
  {
    if path != [] && p != [] && p[0] == path[0] {
      var child := if path[0] in t.children then t.children[path[0]] else EMPTY;
      AddedPaths(child, path[1..], p[1..]);
      assert p <= path <==> p[1..] <= path[1..] by {
        if p[1..] <= path[1..] {
          assert p == [p[0]] + p[1..] && path == [p[0]] + path[1..];
        }
      }
      if p[0] !in t.children && HasPath(EMPTY, p[1..]) {
        assert p[1..] == [];
      }
    }
  }

  lemma CommandHasNoWordAfter(t: Trie, p: Path)
    ensures IsCommand(t, p) <==> p != [] && HasPath(t, p) && forall w: string :: !HasPath(t, p + [w])
  {
    if p != [] && HasPath(t, p) {
      if Below(t, p) != EMPTY {
        var w: string :| w in Below(t, p).children;
        PathStep(t, p, w);
      } else {
        forall w: string ensures !HasPath(t, p + [w]) {
          PathStep(t, p, w);
        }
      }
    }
  }

  lemma ShorterPrefix(p: Path, path: Path)
    requires p <= path && p != path
    ensures p + [path[|p|]] <= path
  {
  }

  // Adding a command keeps the others but for those it begins with; it is itself a command
  // unless others begin with it.
  lemma AddedCommands(t: Trie, path: Path, p: Path)
    ensures IsCommand(Added(t, path), p) <==>
      (IsCommand(t, p) && !(p <= path && p != path))
      || (p == path != [] && (!HasPath(t, p) || IsCommand(t, p)))
  {
    var u := Added(t, path);
    AddedPaths(t, path, p);
    CommandHasNoWordAfter(u, p);
    CommandHasNoWordAfter(t, p);
    forall w: string
      ensures HasPath(u, p + [w]) <==> HasPath(t, p + [w]) || p + [w] <= path
      ensures HasPath(t, p + [w]) ==> HasPath(t, p)
    {
      AddedPaths(t, path, p + [w]);
      if HasPath(t, p + [w]) {
        PathPrefix(t, p, p + [w]);
      }
    }
    if p <= path && p != path {
      ShorterPrefix(p, path);
    }
  }

  // ---------- filtering by prefixes ----------

  function Rest(prefixes: Path): Path {
    if prefixes == [] then [] else prefixes[1..]
  }

  predicate Suits(word: string, prefixes: Path) {
    prefixes == [] || prefixes[0] <= word
  }

  // Whether an entry that is not a command by itself is dropped when nothing below it is left
  predicate Stays(child: Trie, filtered: Trie, keepUnknown: bool) {
    keepUnknown || child == EMPTY || filtered != EMPTY
  }

  function Filtered(t: Trie, prefixes: Path, keepUnknown: bool): Trie {
    Trie(map word | word in t.children
                    && Suits(word, prefixes)
                    && Stays(t.children[word], Filtered(t.children[word], Rest(prefixes), keepUnknown), keepUnknown)
         :: Filtered(t.children[word], Rest(prefixes), keepUnknown))
  }

  // Each word starts with the prefix at its place, up to the shorter length.
  predicate Matches(path: Path, prefixes: Path) {
    forall i :: 0 <= i < |path| && i < |prefixes| ==> prefixes[i] <= path[i]
  }

  lemma MatchesStep(path: Path, prefixes: Path)
    requires path != []
    ensures Matches(path, prefixes) <==> Suits(path[0], prefixes) && Matches(path[1..], Rest(prefixes))
  {
    if prefixes != [] && Suits(path[0], prefixes) && Matches(path[1..], Rest(prefixes)) {
      forall i | 0 <= i < |path| && i < |prefixes| ensures prefixes[i] <= path[i] {
        if i > 0 {
          assert Rest(prefixes)[i - 1] <= path[1..][i - 1];
        }
      }
    }
    if prefixes != [] && Matches(path, prefixes) {
      forall i | 0 <= i < |path[1..]| && i < |Rest(prefixes)| ensures Rest(prefixes)[i] <= path[1..][i] {
        assert prefixes[i + 1] <= path[i + 1];
      }
    }
  }

  lemma NoCommandInNothing(path: Path)
    ensures !IsCommand(EMPTY, path)
  {
  }

  // The commands that are left are exactly the ones that match.
  lemma {:induction false} FilterKeepsMatchingCommands(t: Trie, prefixes: Path, path: Path)
    ensures IsCommand(Filtered(t, prefixes, false), path) <==> IsCommand(t, path) && Matches(path, prefixes)
    decreases |path|
  {
    var f := Filtered(t, prefixes, false);
    if path != [] && path[0] in t.children {
      var child, rest := t.children[path[0]], path[1..];
      MatchesStep(path, prefixes);
      FilterKeepsMatchingCommands(child, Rest(prefixes), rest);
      CommandStep(t, path);
      if path[0] in f.children {
        CommandStep(f, path);
      }
      NoCommandInNothing(rest);
      assert child == EMPTY ==> Filtered(child, Rest(prefixes), false).children == map[];
      assert path == [path[0]] <==> rest == [];
      assert Matches([], Rest(prefixes)) && !IsCommand(child, []);
    }
  }

  // With trailing unknown words ignored, every path that matches is left.
  lemma {:induction false} FilterKeepsMatchingPaths(t: Trie, prefixes: Path, path: Path)
    ensures HasPath(Filtered(t, prefixes, true), path) <==> HasPath(t, path) && Matches(path, prefixes)
    decreases |path|
  {
    if path != [] {
      MatchesStep(path, prefixes);
      if path[0] in t.children {
        FilterKeepsMatchingPaths(t.children[path[0]], Rest(prefixes), path[1..]);
      }
    }
  }

  // Its commands are then the matching paths that no matching word follows.
  lemma FilterIgnoringUnknown(t: Trie, prefixes: Path, path: Path)
    ensures IsCommand(Filtered(t, prefixes, true), path) <==>
      && path != [] && HasPath(t, path) && Matches(path, prefixes)
      && forall word: string :: !(HasPath(t, path + [word]) && Matches(path + [word], prefixes))
  {
    var f := Filtered(t, prefixes, true);
    CommandHasNoWordAfter(f, path);
    FilterKeepsMatchingPaths(t, prefixes, path);
    forall word: string
      ensures HasPath(f, path + [word]) <==> HasPath(t, path + [word]) && Matches(path + [word], prefixes)
    {
      FilterKeepsMatchingPaths(t, prefixes, path + [word]);
    }
  }

  // Otherwise the paths left are the beginnings of matching commands.
  lemma FilterLeavesNoDeadEnds(t: Trie, prefixes: Path, path: Path)
    requires path != []
    ensures HasPath(Filtered(t, prefixes, false), path) <==>
      exists command: Path :: path <= command && IsCommand(t, command) && Matches(command, prefixes)
  {
    var f := Filtered(t, prefixes, false);
    if HasPath(f, path) {
      var command := PathExtends(f, path);
      FilterKeepsMatchingCommands(t, prefixes, command);
    }
    if command: Path :| path <= command && IsCommand(t, command) && Matches(command, prefixes) {
      FilterKeepsMatchingCommands(t, prefixes, command);
      PathPrefix(f, path, command);
    }
  }

  // ---------- the common prefix ----------

  ghost function CommonPrefix(t: Trie): Path {
    if |t.children| != 1 then []
    else
      var word: string :| word in t.children;
      [word] + CommonPrefix(t.children[word])
  }

  lemma OnlyKey(m: map<string, Trie>, k: string, j: string)
    requires |m| == 1 && k in m && j in m
    ensures k == j
  {
    assert |m.Keys| == 1 && {k} <= m.Keys;
    if k != j {
      assert {k, j} <= m.Keys && |{k, j}| == 2;
      SubsetSize({k, j}, m.Keys);
    }
  }

  lemma {:induction false} SubsetSize(a: set<string>, b: set<string>)
    requires a <= b
    ensures |a| <= |b|
  {
    if a != {} {
      var x :| x in a;
      SubsetSize(a - {x}, b - {x});
    }
  }

  lemma CommonPrefixStep(t: Trie, word: string)
    requires |t.children| == 1 && word in t.children
    ensures CommonPrefix(t) == [word] + CommonPrefix(t.children[word])
  {
    forall other | other in t.children ensures other == word {
      OnlyKey(t.children, word, other);
    }
  }

  lemma {:induction false} CommonPrefixIsPath(t: Trie)
    ensures HasPath(t, CommonPrefix(t))
  {
    if |t.children| == 1 {
      var word: string :| word in t.children;
      CommonPrefixStep(t, word);
      CommonPrefixIsPath(t.children[word]);
    }
  }

  ghost predicate AllStartWith(t: Trie, p: Path) {
    forall command: Path :: IsCommand(t, command) ==> p <= command
  }

  lemma {:induction false} CommandsStartWithIt(t: Trie, command: Path)
    requires IsCommand(t, command)
    ensures CommonPrefix(t) <= command
    decreases |command|
  {
    if |t.children| == 1 {
      CommonPrefixStep(t, command[0]);
      var child := t.children[command[0]];
      assert command == [command[0]] + command[1..];
      assert HasPath(child, command[1..]) && Below(child, command[1..]) == EMPTY;
      if child == EMPTY {
        assert |child.children| == 0;
      } else {
        CommandsStartWithIt(child, command[1..]);
      }
    }
  }

  lemma TwoKeys(m: map<string, Trie>, k: string) returns (other: string)
    requires k in m && |m| != 1
    ensures other in m && other != k
  {
    var rest := m.Keys - {k};
    assert |rest| == |m.Keys| - 1;
    other :| other in rest;
  }

  lemma BranchesShareNothing(t: Trie, p: Path)
    requires |t.children| > 1 && AllStartWith(t, p)
    ensures p == []
  {
    var first := PathExtends(t, []);
    var other := TwoKeys(t.children, first[0]);
    var second := PathExtends(t, [other]);
    assert second[0] == other;
    assert p <= first && p <= second;
  }

  lemma {:induction false} NothingLongerIsCommon(t: Trie, p: Path)
    requires t != EMPTY && AllStartWith(t, p)
    ensures p <= CommonPrefix(t)
    decreases |p|
  {
    if |t.children| != 1 {
      assert t.children != map[];
      BranchesShareNothing(t, p);
    } else if p != [] {
      var first := PathExtends(t, []);
      assert p <= first && p[0] in t.children;
      CommonPrefixStep(t, p[0]);
      var child := t.children[p[0]];
      if child == EMPTY {
        OnlyTheEmptyPath(first[1..]);
        assert p == [p[0]];
      } else {
        forall command: Path | IsCommand(child, command) ensures p[1..] <= command {
          assert ([p[0]] + command)[1..] == command;
          assert IsCommand(t, [p[0]] + command);
        }
        NothingLongerIsCommon(child, p[1..]);
        assert p == [p[0]] + p[1..];
      }
    }
  }

  // The common prefix of a non-empty trie is the longest path that all commands start with.
  lemma LongestCommonPrefix(t: Trie, p: Path)
    requires t != EMPTY
    ensures AllStartWith(t, p) <==> p <= CommonPrefix(t)
  {
    forall command: Path | IsCommand(t, command) ensures CommonPrefix(t) <= command {
      CommandsStartWithIt(t, command);
    }
    if AllStartWith(t, p) {
      NothingLongerIsCommon(t, p);
    }
  }

  // ---------- completions ----------

  ghost predicate IsMatch(t: Trie, typed: Path, command: Path) {
    IsCommand(t, command) && Matches(command, typed)
  }

  // All commands that match what was typed start with the same words, one for each typed.
  ghost predicate Agreed(t: Trie, typed: Path, words: Path) {
    && |words| == |typed|
    && (exists command: Path :: IsMatch(t, typed, command))
    && (forall command: Path :: IsMatch(t, typed, command) ==> words <= command)
  }

  // What get_completions offers: the next words below the agreed ones
  ghost predicate Offered(t: Trie, typed: Path, active: string, word: string) {
    var f := Filtered(t, typed, false);
    var common := CommonPrefix(f);
    && |common| >= |typed|
    && HasPath(f, common[..|typed|] + [word])
    && active <= word
  }

  lemma AgreedIsCommon(t: Trie, typed: Path, words: Path)
    ensures Agreed(t, typed, words) <==>
      |words| == |typed| && Filtered(t, typed, false) != EMPTY && words <= CommonPrefix(Filtered(t, typed, false))
  {
    var f := Filtered(t, typed, false);
    forall command: Path
      ensures IsMatch(t, typed, command) <==> IsCommand(f, command)
    {
      FilterKeepsMatchingCommands(t, typed, command);
    }
    if f == EMPTY {
      forall command: Path ensures !IsMatch(t, typed, command) {
        OnlyTheEmptyPath(command);
      }
    } else {
      var some := PathExtends(f, []);
      assert IsMatch(t, typed, some);
      LongestCommonPrefix(f, words);
    }
  }

  // A word is completed exactly when all commands that match agree on the words already typed
  // and one of them goes on with it.
  lemma CompletionsNeedAgreement(t: Trie, typed: Path, active: string, word: string)
    ensures Offered(t, typed, active, word) <==>
      active <= word && exists words: Path, command: Path ::
        Agreed(t, typed, words) && IsMatch(t, typed, command) && words + [word] <= command
  {
    var f := Filtered(t, typed, false);
    var common := CommonPrefix(f);
    if Offered(t, typed, active, word) {
      var words := common[..|typed|];
      OnlyTheEmptyPath(words + [word]);
      AgreedIsCommon(t, typed, words);
      FilterLeavesNoDeadEnds(t, typed, words + [word]);
      var command: Path :| words + [word] <= command && IsCommand(t, command) && Matches(command, typed);
      assert IsMatch(t, typed, command);
    }
    if words: Path, command: Path :|
      Agreed(t, typed, words) && IsMatch(t, typed, command) && words + [word] <= command
    {
      AgreedIsCommon(t, typed, words);
      assert words == common[..|typed|];
      FilterLeavesNoDeadEnds(t, typed, words + [word]);
    }
  }

  // ---------- lists of commands ----------

  predicate NoDuplicates(list: seq<Path>) {
    forall i, j :: 0 <= i < j < |list| ==> list[i] != list[j]
  }

  // A list has the commands that start with some words, behind a prefix, once each.
  ghost predicate ListsFrom(t: Trie, prefix: Path, words: set<string>, list: seq<Path>) {
    && NoDuplicates(list)
    && forall p: Path :: p in list <==>
         prefix <= p && IsCommand(t, p[|prefix|..]) && p[|prefix|] in words
  }

  ghost predicate Lists(t: Trie, list: seq<Path>) {
    NoDuplicates(list) && forall p: Path :: p in list <==> IsCommand(t, p)
  }

  lemma OneMoreWord(t: Trie, prefix: Path, words: set<string>, list: seq<Path>, word: string, more: seq<Path>)
    requires ListsFrom(t, prefix, words, list) && word in t.children && word !in words
    requires if t.children[word] == EMPTY then more == [prefix + [word]]
             else ListsFrom(t.children[word], prefix + [word], t.children[word].children.Keys, more)
    ensures ListsFrom(t, prefix, words + {word}, list + more)
  {
    forall p: Path
      ensures p in more <==> prefix <= p && IsCommand(t, p[|prefix|..]) && p[|prefix|] == word
    {
      MoreHas(t, prefix, word, more, p);
    }
    forall p: Path
      ensures p in list + more <==> prefix <= p && IsCommand(t, p[|prefix|..]) && p[|prefix|] in words + {word}
    {
    }
    forall i, j | 0 <= i < j < |list + more| ensures (list + more)[i] != (list + more)[j] {
      if i < |list| <= j {
        assert list[i] in list && more[j - |list|] in more;
      }
    }
  }

  lemma MoreHas(t: Trie, prefix: Path, word: string, more: seq<Path>, p: Path)
    requires word in t.children
    requires if t.children[word] == EMPTY then more == [prefix + [word]]
             else ListsFrom(t.children[word], prefix + [word], t.children[word].children.Keys, more)
    ensures p in more <==> prefix <= p && IsCommand(t, p[|prefix|..]) && p[|prefix|] == word
  {
    var longer := prefix + [word];
    assert longer[|prefix|..] == [word];
    if longer <= p {
      assert p[..|prefix|] == prefix && p[|prefix|] == word;
    }
    if prefix <= p && |p| > |prefix| && p[|prefix|] == word {
      assert longer <= p && p[|longer|..] == p[|prefix|..][1..];
      CommandStep(t, p[|prefix|..]);
      if p[|prefix|..] == [word] {
        assert p == longer;
      }
    }
  }

  lemma CommandStep(t: Trie, q: Path)
    requires q != [] && q[0] in t.children
    ensures IsCommand(t, q) <==>
      if t.children[q[0]] == EMPTY then q == [q[0]] else IsCommand(t.children[q[0]], q[1..])
  {
    var child := t.children[q[0]];
    OnlyTheEmptyPath(q[1..]);
    assert q == [q[0]] + q[1..];
    assert q[1..] == [] <==> q == [q[0]];
    assert HasPath(t, q) <==> HasPath(child, q[1..]);
    if HasPath(t, q) {
      assert Below(t, q) == Below(child, q[1..]);
      assert q[1..] == [] ==> Below(child, q[1..]) == child;
    }
  }

  lemma NothingYet(t: Trie, prefix: Path)
    ensures ListsFrom(t, prefix, {}, [])
  {
  }

  lemma AllWords(t: Trie, list: seq<Path>)
    ensures ListsFrom(t, [], t.children.Keys, list) <==> Lists(t, list)
  {
    forall p: Path
      ensures (IsCommand(t, p[0..]) && p[0] in t.children.Keys) <==> IsCommand(t, p)
    {
      assert p[0..] == p;
    }
  }

  lemma {:induction false} ListSize(list: seq<Path>)
    requires NoDuplicates(list)
    ensures |set p | p in list| == |list|
  {
    if list != [] {
      var n := |list| - 1;
      ListSize(list[..n]);
      assert (set p | p in list) == (set p | p in list[..n]) + {list[n]};
    }
  }

  // There is one number of commands, however they are listed.
  lemma CountIsUnique(t: Trie, a: seq<Path>, b: seq<Path>)
    requires Lists(t, a) && Lists(t, b)
    ensures |a| == |b|
    ensures a == [] <==> t == EMPTY
  {
    ListSize(a);
    ListSize(b);
    if a != [] {
      assert a[0] in a && IsCommand(t, a[0]);
    }
    assert (set p | p in a) == (set p | p in b);
    if t == EMPTY {
      forall p: Path ensures p !in a {
        OnlyTheEmptyPath(p);
      }
    } else {
      var some := PathExtends(t, []);
      assert some in a;
    }
  }

  // ---------- the longest unambiguous prefix ----------

  // Cut to the number of words typed, the common prefix of what is left by the filter is the
  // longest path of at most that many words that all matching commands start with.
  lemma LongestUnambiguous(t: Trie, typed: Path, q: Path)
    requires Filtered(t, typed, false) != EMPTY && |q| <= |typed|
    ensures var common := CommonPrefix(Filtered(t, typed, false));
      q <= common[..if |common| < |typed| then |common| else |typed|]
      <==> forall command: Path :: IsMatch(t, typed, command) ==> q <= command
  {
    var f := Filtered(t, typed, false);
    LongestCommonPrefix(f, q);
    forall command: Path
      ensures IsMatch(t, typed, command) <==> IsCommand(f, command)
    {
      FilterKeepsMatchingCommands(t, typed, command);
    }
  }

  lemma NoMatchLeft(t: Trie, typed: Path)
    ensures Filtered(t, typed, false) == EMPTY <==> forall command: Path :: !IsMatch(t, typed, command)
  {
    var f := Filtered(t, typed, false);
    forall command: Path
      ensures IsMatch(t, typed, command) <==> IsCommand(f, command)
    {
      FilterKeepsMatchingCommands(t, typed, command);
    }
    if f == EMPTY {
      forall command: Path ensures !IsCommand(f, command) {
        OnlyTheEmptyPath(command);
      }
    } else {
      var some := PathExtends(f, []);
      assert IsMatch(t, typed, some);
    }
  }
}
