// The command finder's nested dictionaries (commandfinder.py) and the completer on top of them
// (commandcompleter.py).

module CommandFinders {
  import opened Wrappers
  import opened CommandLines
  import opened CommandTrie

  // A dictionary from words to dictionaries. The view is what it holds, as a value; a dictionary
  // is made as the entry of one other, its parent.
  class Dict {
    var children: map<string, Dict>
    ghost var view: Trie
    ghost const depth: nat
    ghost const parent: Dict?
    ghost const word: string

    constructor AsTop()
      ensures children == map[] && view == EMPTY && depth == 0 && parent == null
    {
      children, view, depth, parent, word := map[], EMPTY, 0, null, "";
    }

    constructor AsEntry(ghost parent: Dict, ghost word: string)
      ensures children == map[] && view == EMPTY
      ensures depth == parent.depth + 1 && this.parent == parent && this.word == word
    {
      children, view, depth, this.parent, this.word := map[], EMPTY, parent.depth + 1, parent, word;
    }
  }

  // The dictionaries of a set refer to each other only, and each has one parent.
  ghost predicate IsShape(root: Dict, nodes: set<Dict>)
    reads nodes
  {
    && root in nodes
    && (forall n <- nodes :: n == root || n.depth > root.depth)
    && (forall n <- nodes :: n.view.children.Keys == n.children.Keys)
    && (forall n <- nodes, k <- n.children ::
          n.children[k] in nodes && n.children[k].depth == n.depth + 1
          && n.children[k].parent == n && n.children[k].word == k)
  }

  // The view of each dictionary is made of the views of its entries.
  ghost predicate IsTree(root: Dict, nodes: set<Dict>)
    reads nodes
  {
    && IsShape(root, nodes)
    && forall n <- nodes, k <- n.children :: n.view.children[k] == n.children[k].view
  }

  // As IsTree, while the rest of a command is still to be added to one of the dictionaries
  ghost predicate IsTreeAwaiting(root: Dict, nodes: set<Dict>, cur: Dict, rest: Path)
    reads nodes
  {
    && IsShape(root, nodes) && cur in nodes
    && forall n <- nodes, k <- n.children :: n.view.children[k] == Awaited(n.children[k], cur, rest)
  }

  ghost function Awaited(n: Dict, cur: Dict, rest: Path): Trie
    reads n
  {
    if n == cur then Added(n.view, rest) else n.view
  }

  lemma AddedToMissing(t: Trie, rest: Path)
    requires rest != [] && rest[0] !in t.children
    ensures Added(Trie(t.children[rest[0] := EMPTY]), rest) == Added(t, rest)
  {
    var u := Trie(t.children[rest[0] := EMPTY]);
    assert u.children[rest[0] := Added(EMPTY, rest[1..])] == t.children[rest[0] := Added(EMPTY, rest[1..])];
  }

  class CommandFinder {
    var top: Dict
    ghost var nodes: set<Dict>

    ghost predicate Valid()
      reads this, nodes
    {
      IsTree(top, nodes)
    }

    constructor ()
      ensures Valid() && fresh(nodes) && top.view == EMPTY
    {
      top := new Dict.AsTop();
      nodes := {top};
    }

    method AddCommand(path: Path)
      requires Valid()
      modifies this`nodes, nodes
      ensures Valid() && fresh(nodes - old(nodes))
      ensures top.view == Added(old(top.view), path)
    {
      var cur := top;
      for i := 0 to |path|
        invariant IsTreeAwaiting(top, nodes, cur, path[i..])
        invariant fresh(nodes - old(nodes))
        invariant Awaited(top, cur, path[i..]) == Added(old(top.view), path)
      {
        cur := Descend(cur, path[i..]);
      }
    }

    // One step of the loop: make the entry if it is missing, and enter it.
    method Descend(cur: Dict, rest: Path) returns (next: Dict)
      requires rest != [] && IsTreeAwaiting(top, nodes, cur, rest)
      modifies this`nodes, cur
      ensures fresh(nodes - old(nodes))
      ensures IsTreeAwaiting(top, nodes, next, rest[1..])
      ensures Awaited(top, next, rest[1..]) == old(Awaited(top, cur, rest))
    {
      if rest[0] !in cur.children {
        NewEntry(cur, rest);
      }
      next := cur.children[rest[0]];
      Hand(cur, rest, next);
    }

    method NewEntry(cur: Dict, rest: Path)
      requires rest != [] && IsTreeAwaiting(top, nodes, cur, rest) && rest[0] !in cur.children
      modifies this`nodes, cur
      ensures fresh(nodes - old(nodes)) && nodes >= old(nodes)
      ensures IsTreeAwaiting(top, nodes, cur, rest) && rest[0] in cur.children
      ensures Added(cur.view, rest) == old(Added(cur.view, rest))
    {
      ghost var before, others := cur.view, nodes;
      var entry := Attach(cur, rest[0]);
      AddedToMissing(before, rest);
      forall n <- nodes, k <- n.children
        ensures n.view.children[k] == Awaited(n.children[k], cur, rest)
      {
        if n.children[k] != entry {
          assert n in others && (n == cur ==> k != rest[0]);
          assert n.children[k] != cur ==> n.children[k] in others;
        } else {
          assert n == cur && k == rest[0];
        }
      }
    }

    method Attach(cur: Dict, word: string) returns (entry: Dict)
      requires IsShape(top, nodes) && cur in nodes && word !in cur.children
      modifies this`nodes, cur
      ensures fresh(entry) && entry.children == map[] && entry.view == EMPTY
      ensures nodes == old(nodes) + {entry} && IsShape(top, nodes)
      ensures cur.children == old(cur.children)[word := entry]
      ensures cur.view == Trie(old(cur.view).children[word := EMPTY])
    {
      entry := new Dict.AsEntry(cur, word);
      nodes := nodes + {entry};
      Link(cur, word, entry);
    }

    method Link(cur: Dict, word: string, entry: Dict)
      requires IsShape(top, nodes) && cur in nodes && word !in cur.children
      requires entry in nodes && entry.depth == cur.depth + 1 && entry.parent == cur && entry.word == word
      modifies cur
      ensures IsShape(top, nodes)
      ensures cur.children == old(cur.children)[word := entry]
      ensures cur.view == Trie(old(cur.view).children[word := EMPTY])
    {
      cur.children := cur.children[word := entry];
      cur.view := Trie(cur.view.children[word := EMPTY]);
      forall n <- nodes, k <- n.children
        ensures n.children[k] in nodes && n.children[k].depth == n.depth + 1
                && n.children[k].parent == n && n.children[k].word == k
      {
        assert n != cur || k != word ==> k in old(n.children) && n.children[k] == old(n.children[k]);
      }
    }

    // What is to be added to a dictionary becomes something to be added to its entry.
    ghost method Hand(cur: Dict, rest: Path, next: Dict)
      requires rest != [] && IsTreeAwaiting(top, nodes, cur, rest)
      requires rest[0] in cur.children && next == cur.children[rest[0]]
      modifies cur`view
      ensures IsTreeAwaiting(top, nodes, next, rest[1..])
      ensures cur.view == old(Added(cur.view, rest))
    {
      ghost var before := cur.view;
      cur.view := Added(before, rest);
      assert cur.view.children == before.children[rest[0] := Added(next.view, rest[1..])];
      assert IsShape(top, nodes);
      forall n <- nodes, k <- n.children
        ensures n.view.children[k] == Awaited(n.children[k], next, rest[1..])
      {
        if n == cur {
          assert k != rest[0] ==> n.children[k] != next && n.children[k] != cur;
        } else {
          assert n.children[k] != next;
        }
      }
    }

    // The words after a path, sorted; None when there is no such path.
    method FindSubcommands(path: Path) returns (words: Option<seq<string>>)
      requires Valid()
      ensures words.Some? <==> HasPath(top.view, path)
      ensures words.Some? ==> Increasing(words.value)
      ensures words.Some? ==> forall w: string :: w in words.value <==> HasPath(top.view, path + [w])
    {
      var cur := top;
      for i := 0 to |path|
        invariant cur in nodes
        invariant HasPath(top.view, path) <==> HasPath(cur.view, path[i..])
        invariant HasPath(top.view, path) ==> Below(top.view, path) == Below(cur.view, path[i..])
      {
        if path[i] !in cur.children {
          return None;
        }
        cur := cur.children[path[i]];
      }
      forall w: string
        ensures w in cur.children.Keys <==> HasPath(top.view, path + [w])
      {
        PathStep(top.view, path, w);
      }
      var list := Sorted(cur.children.Keys);
      return Some(list);
    }

    method GetCommonPrefix() returns (common: Path)
      requires Valid()
      ensures common == CommonPrefix(top.view)
    {
      assert top in nodes;
      hide CommonPrefix, IsTree, IsShape;
      common := [];
      var cur := top;
      while cur.children != map[]
        invariant cur in nodes
        invariant CommonPrefix(top.view) == common + CommonPrefix(cur.view)
        decreases cur.view
      {
        SameSize(top, nodes, cur);
        EndOfCommon(cur.view);
        if |cur.children| != 1 {
          return;
        }
        var word: string :| word in cur.children;
        EntryOf(top, nodes, cur, word);
        CommonPrefixStep(cur.view, word);
        Regroup(common, word, CommonPrefix(cur.view.children[word]));
        common := common + [word];
        cur := cur.children[word];
      }
      SameSize(top, nodes, cur);
      EndOfCommon(cur.view);
    }

    lemma EndOfCommon(t: Trie)
      ensures |t.children| != 1 ==> CommonPrefix(t) == []
    {
    }

    lemma Regroup(before: Path, word: string, after: Path)
      ensures before + ([word] + after) == before + [word] + after
    {
    }

    method FilterBySubcommandPrefixes(prefixes: Path, keepUnknown: bool) returns (res: CommandFinder)
      requires Valid()
      ensures fresh(res) && fresh(res.nodes) && res.Valid()
      ensures res.top.view == Filtered(top.view, prefixes, keepUnknown)
      ensures !keepUnknown ==> forall p: Path ::
                IsCommand(res.top.view, p) <==> IsCommand(top.view, p) && Matches(p, prefixes)
    {
      res := new CommandFinder();
      ghost var made := FilterInto(prefixes, keepUnknown, top, res.top, top, nodes);
      res.nodes := {res.top} + made;
      if !keepUnknown {
        forall p: Path
          ensures IsCommand(res.top.view, p) <==> IsCommand(top.view, p) && Matches(p, prefixes)
        {
          FilterKeepsMatchingCommands(top.view, prefixes, p);
        }
      }
    }

    method GetNbCommands() returns (total: nat)
      requires Valid()
      ensures exists list: seq<Path> :: Lists(top.view, list) && |list| == total
      ensures forall list: seq<Path> :: Lists(top.view, list) ==> |list| == total
      ensures total == 0 <==> top.view == EMPTY
    {
      ghost var list;
      total, list := CountBelow(top, [], top, nodes);
      AllWords(top.view, list);
      CountIsUnique(top.view, list, list);
      forall other: seq<Path> | Lists(top.view, other) ensures |other| == total {
        CountIsUnique(top.view, list, other);
      }
    }

    method GetAllCommands() returns (list: seq<Path>)
      requires Valid()
      ensures Lists(top.view, list)
    {
      list := ListBelow(top, [], top, nodes);
      AllWords(top.view, list);
    }

    // The next words below what is certain of the words typed, and what is certain of them
    method GetMatchingSubcommandsByPrefixes(typed: Path) returns (words: seq<string>, certain: Path)
      requires Valid()
      ensures Increasing(words)
      ensures var common := CommonPrefix(Filtered(top.view, typed, false));
        certain == common[..if |common| < |typed| then |common| else |typed|]
      ensures forall w: string :: w in words <==> HasPath(Filtered(top.view, typed, false), certain + [w])
    {
      var matching := FilterBySubcommandPrefixes(typed, false);
      var common := matching.GetCommonPrefix();
      certain := common[..if |common| < |typed| then |common| else |typed|];
      CommonPrefixIsPath(matching.top.view);
      PathPrefix(matching.top.view, certain, common);
      var found := matching.FindSubcommands(certain);
      words := found.value;
    }

    // None is for no match. The words returned are those that all matches start with, as far as
    // words were typed.
    method GetLongestUnambiguousCommandPrefix(typed: Path, keepUnknown: bool) returns (certain: Option<Path>)
      requires Valid()
      ensures keepUnknown ==> certain.Some?
      ensures keepUnknown ==>
                var common := CommonPrefix(Filtered(top.view, typed, true));
                certain.value == common[..if |common| < |typed| then |common| else |typed|]
      ensures !keepUnknown ==> (certain.None? <==> forall command: Path :: !IsMatch(top.view, typed, command))
      ensures !keepUnknown && certain.Some? ==> |certain.value| <= |typed| && forall q: Path :: |q| <= |typed| ==>
                (q <= certain.value <==> forall command: Path :: IsMatch(top.view, typed, command) ==> q <= command)
    {
      hide Filtered, CommonPrefix, IsMatch, IsTree, IsShape;
      var filtered := FilterBySubcommandPrefixes(typed, keepUnknown);
      var total := filtered.GetNbCommands();
      NoMatchLeft(top.view, typed);
      if total == 0 {
        EndOfCommon(EMPTY);
        return if keepUnknown then Some([]) else None;
      }
      var common := filtered.GetCommonPrefix();
      certain := Some(common[..if |common| < |typed| then |common| else |typed|]);
      if !keepUnknown {
        forall q: Path | |q| <= |typed|
          ensures q <= certain.value <==> forall command: Path :: IsMatch(top.view, typed, command) ==> q <= command
        {
          LongestUnambiguous(top.view, typed, q);
        }
      }
    }

    // get_completions: the words that may follow, sorted
    method GetCompletions(line: string) returns (completions: seq<string>)
      requires Valid()
      ensures Increasing(completions)
      ensures forall w: string :: w in completions <==>
                Active(line) <= w && exists agreed: Path, command: Path ::
                  Agreed(top.view, Typed(line), agreed) && IsMatch(top.view, Typed(line), command) && agreed + [w] <= command
    {
      hide CommonPrefix, Agreed, IsMatch, Increasing, IsTree;
      var typed, active := Typed(line), Active(line);
      var words, certain := GetMatchingSubcommandsByPrefixes(typed);
      if |certain| == |typed| {
        completions := Sorted(set w | w in words && active <= w);
      } else {
        completions := [];
        NothingIncreases();
      }
      forall w: string
        ensures w in completions <==>
                  active <= w && exists agreed: Path, command: Path ::
                    Agreed(top.view, typed, agreed) && IsMatch(top.view, typed, command) && agreed + [w] <= command
      {
        CompletionsNeedAgreement(top.view, typed, active, w);
      }
    }

    lemma NothingIncreases()
      ensures Increasing([])
    {
    }
  }

  // ---------- listing ----------

  // The recursion of get_all_commands
  method ListBelow(cur: Dict, prefix: Path, ghost root: Dict, ghost nodes: set<Dict>) returns (list: seq<Path>)
    requires IsTree(root, nodes) && cur in nodes
    ensures ListsFrom(cur.view, prefix, cur.view.children.Keys, list)
    decreases cur.view
  {
    hide IsTree, IsShape, ListsFrom;
    list := [];
    NothingYet(cur.view, prefix);
    KeysOf(root, nodes, cur);
    var rest := cur.children.Keys;
    ghost var done: set<string> := {};
    while rest != {}
      invariant done + rest == cur.children.Keys && done !! rest
      invariant ListsFrom(cur.view, prefix, done, list)
      decreases |rest|
    {
      var word: string :| word in rest;
      var child := cur.children[word];
      EntryOf(root, nodes, cur, word);
      EmptyView(root, nodes, child);
      var more := [prefix + [word]];
      if child.children != map[] {
        more := ListBelow(child, prefix + [word], root, nodes);
      }
      OneMoreWord(cur.view, prefix, done, list, word, more);
      list := list + more;
      rest, done := rest - {word}, done + {word};
    }
    assert done == cur.view.children.Keys;
  }

  // The recursion of get_nb_commands, with the list of what it counts
  method CountBelow(cur: Dict, ghost prefix: Path, ghost root: Dict, ghost nodes: set<Dict>)
    returns (total: nat, ghost list: seq<Path>)
    requires IsTree(root, nodes) && cur in nodes
    ensures ListsFrom(cur.view, prefix, cur.view.children.Keys, list) && |list| == total
    ensures total == 0 <==> cur.view == EMPTY
    decreases cur.view
  {
    hide IsTree, IsShape, ListsFrom;
    total, list := 0, [];
    NothingYet(cur.view, prefix);
    KeysOf(root, nodes, cur);
    EmptyView(root, nodes, cur);
    var rest := cur.children.Keys;
    ghost var done: set<string> := {};
    while rest != {}
      invariant done + rest == cur.children.Keys && done !! rest
      invariant ListsFrom(cur.view, prefix, done, list) && |list| == total
      invariant total == 0 <==> done == {}
      decreases |rest|
    {
      var word: string :| word in rest;
      EntryOf(root, nodes, cur, word);
      ghost var more;
      var below;
      below, more := CountBelow(cur.children[word], prefix + [word], root, nodes);
      if below == 0 {
        more := [prefix + [word]];
      }
      OneMoreWord(cur.view, prefix, done, list, word, more);
      list := list + more;
      total := total + if below > 0 then below else 1;
      rest, done := rest - {word}, done + {word};
    }
    assert done == cur.view.children.Keys;
    assert done == {} <==> cur.children == map[];
  }

  // ---------- filtering ----------

  // What the filter has copied when it is through with some of the words
  ghost function FilteredWords(t: Trie, prefixes: Path, keepUnknown: bool, words: set<string>): Trie {
    Trie(map word | word in Filtered(t, prefixes, keepUnknown).children && word in words
         :: Filtered(t, prefixes, keepUnknown).children[word])
  }

  lemma FilteredOneMore(t: Trie, prefixes: Path, keepUnknown: bool, words: set<string>, word: string)
    requires word in t.children && word !in words
    ensures var child := Filtered(t.children[word], Rest(prefixes), keepUnknown);
      var done := FilteredWords(t, prefixes, keepUnknown, words);
      FilteredWords(t, prefixes, keepUnknown, words + {word}) ==
        if Suits(word, prefixes) && Stays(t.children[word], child, keepUnknown)
        then Trie(done.children[word := child]) else done
  {
  }

  lemma FilteredEnds(t: Trie, prefixes: Path, keepUnknown: bool)
    ensures FilteredWords(t, prefixes, keepUnknown, {}) == EMPTY
    ensures FilteredWords(t, prefixes, keepUnknown, t.children.Keys) == Filtered(t, prefixes, keepUnknown)
  {
    assert FilteredWords(t, prefixes, keepUnknown, t.children.Keys).children == Filtered(t, prefixes, keepUnknown).children;
  }

  lemma NotCopiedYet(t: Trie, prefixes: Path, keepUnknown: bool, words: set<string>, word: string)
    requires word !in words
    ensures word !in FilteredWords(t, prefixes, keepUnknown, words).children
  {
  }

  // As IsTree, with nothing said of one word of the root
  ghost predicate IsTreeBut(root: Dict, nodes: set<Dict>, word: string)
    reads nodes
  {
    && root in nodes
    && (forall n <- nodes :: n == root || n.depth > root.depth)
    && (forall n <- nodes :: n == root || n.view.children.Keys == n.children.Keys)
    && (forall n <- nodes, k <- n.children ::
          (n == root && k == word) || (
            && n.children[k] in nodes && n.children[k].depth == n.depth + 1
            && n.children[k].parent == n && n.children[k].word == k
            && k in n.view.children && n.view.children[k] == n.children[k].view))
  }

  // Below one word of a tree's root another tree may hang, or it may be left aside.
  lemma Hang(root: Dict, nodes: set<Dict>, word: string, entry: Dict, below: set<Dict>)
    requires IsTreeBut(root, nodes, word) && IsTree(entry, below)
    requires entry.depth == root.depth + 1 && entry.parent == root && entry.word == word
    requires root.view.children.Keys == root.children.Keys && root !in below
    requires word in root.children ==> root.children[word] == entry && root.view.children[word] == entry.view
    ensures IsTree(root, nodes + below)
  {
    var all := nodes + below;
    forall n <- all, k <- n.children
      ensures n.children[k] in all && n.children[k].depth == n.depth + 1
      ensures n.children[k].parent == n && n.children[k].word == k
      ensures n.view.children[k] == n.children[k].view
    {
    }
  }

  lemma KeysOf(root: Dict, nodes: set<Dict>, n: Dict)
    requires IsTree(root, nodes) && n in nodes
    ensures n.view.children.Keys == n.children.Keys
  {
  }

  lemma SameSize(root: Dict, nodes: set<Dict>, n: Dict)
    requires IsTree(root, nodes) && n in nodes
    ensures |n.view.children| == |n.children|
  {
    assert |n.view.children.Keys| == |n.children.Keys|;
  }

  lemma EmptyDictIsTree(dst: Dict)
    requires dst.children == map[] && dst.view == EMPTY
    ensures IsTree(dst, {dst} + {})
  {
  }

  // The recursion of the filter: copy what matches from one dictionary to an empty one.
  method FilterInto(prefixes: Path, keepUnknown: bool, src: Dict, dst: Dict, ghost root: Dict, ghost nodes: set<Dict>)
    returns (ghost made: set<Dict>)
    requires IsTree(root, nodes) && src in nodes && dst !in nodes
    requires dst.children == map[] && dst.view == EMPTY
    modifies dst
    ensures fresh(made) && IsTree(dst, {dst} + made)
    ensures dst.view == Filtered(src.view, prefixes, keepUnknown)
    decreases src.view
  {
    hide Filtered, FilteredWords, Suits, Stays, IsTree, IsShape;
    made := {};
    var rest := src.children.Keys;
    FilteredEnds(src.view, prefixes, keepUnknown);
    EmptyDictIsTree(dst);
    KeysOf(root, nodes, src);
    assert src.children.Keys - rest == {};
    while rest != {}
      invariant IsTree(root, nodes) && src.children == old(src.children) && src.view == old(src.view)
      invariant rest <= src.children.Keys
      invariant fresh(made) && IsTree(dst, {dst} + made)
      invariant dst.view == FilteredWords(src.view, prefixes, keepUnknown, src.children.Keys - rest)
      decreases |rest|
    {
      var word: string :| word in rest;
      ghost var done := src.children.Keys - rest;
      FilteredOneMore(src.view, prefixes, keepUnknown, done, word);
      NotCopiedYet(src.view, prefixes, keepUnknown, done, word);
      KeysOf(dst, {dst} + made, dst);
      rest := rest - {word};
      assert src.children.Keys - rest == done + {word};
      if Suits(word, prefixes) {
        ghost var below := FilterWord(word, prefixes, keepUnknown, src, dst, root, nodes, made);
        made := made + below;
      }
    }
    assert src.children.Keys - rest == src.view.children.Keys;
  }

  // One round of its loop
  method FilterWord(word: string, prefixes: Path, keepUnknown: bool, src: Dict, dst: Dict,
                    ghost root: Dict, ghost nodes: set<Dict>, ghost made: set<Dict>)
    returns (ghost below: set<Dict>)
    requires IsTree(root, nodes) && src in nodes && dst !in nodes && made !! nodes && word in src.children
    requires IsTree(dst, {dst} + made) && word !in dst.children
    modifies dst
    ensures fresh(below) && IsTree(dst, {dst} + (made + below))
    ensures var child := Filtered(src.view.children[word], Rest(prefixes), keepUnknown);
      dst.view == if Stays(src.view.children[word], child, keepUnknown)
                  then Trie(old(dst.view).children[word := child]) else old(dst.view)
    decreases src.view, 0
  {
    hide Filtered, IsTree, IsShape, IsTreeBut;
    EntryOf(root, nodes, src, word);
    var from := src.children[word];
    var entry := NewWord(word, dst, made);
    ghost var sub := FilterInto(Rest(prefixes), keepUnknown, from, entry, root, nodes);
    below := {entry} + sub;
    KeepWord(word, keepUnknown, from, dst, entry, root, nodes, made, below);
    assert {dst} + made + below == {dst} + (made + below);
  }

  lemma EntryOf(root: Dict, nodes: set<Dict>, n: Dict, word: string)
    requires IsTree(root, nodes) && n in nodes && word in n.children
    ensures n.children[word] in nodes && word in n.view.children && n.view.children[word] == n.children[word].view
  {
  }

  method NewWord(word: string, dst: Dict, ghost made: set<Dict>) returns (entry: Dict)
    requires IsTree(dst, {dst} + made) && word !in dst.children
    modifies dst
    ensures fresh(entry) && entry.children == map[] && entry.view == EMPTY
    ensures entry.depth == dst.depth + 1 && entry.parent == dst && entry.word == word
    ensures dst.children == old(dst.children)[word := entry] && dst.view == old(dst.view)
    ensures dst.view.children.Keys == dst.children.Keys - {word}
    ensures IsTreeBut(dst, {dst} + made, word)
  {
    entry := new Dict.AsEntry(dst, word);
    dst.children := dst.children[word := entry];
  }

  lemma EmptyView(root: Dict, nodes: set<Dict>, n: Dict)
    requires IsTree(root, nodes) && n in nodes
    ensures n.view == EMPTY <==> n.children == map[]
  {
    assert n.children.Keys == {} <==> n.children == map[];
    assert n.view.children.Keys == {} <==> n.view.children == map[];
  }

  method Delete(dst: Dict, ghost nodes: set<Dict>, word: string)
    requires IsTreeBut(dst, nodes, word)
    modifies dst`children
    ensures IsTreeBut(dst, nodes, word) && dst.children == old(dst.children) - {word}
  {
    dst.children := dst.children - {word};
  }

  ghost method Record(dst: Dict, nodes: set<Dict>, word: string, below: Trie)
    requires IsTreeBut(dst, nodes, word)
    modifies dst`view
    ensures IsTreeBut(dst, nodes, word) && dst.view == Trie(old(dst.view).children[word := below])
  {
    dst.view := Trie(dst.view.children[word := below]);
    assert forall n <- nodes, k <- n.children :: n.children[k] == dst ==> n == dst && k == word;
  }

  // Delete the entry again when it is not a command by itself and nothing is left below it.
  method KeepWord(word: string, keepUnknown: bool, from: Dict, dst: Dict, entry: Dict,
                  ghost root: Dict, ghost nodes: set<Dict>, ghost made: set<Dict>, ghost below: set<Dict>)
    requires IsTree(root, nodes) && from in nodes && dst !in nodes && dst !in below
    requires IsTreeBut(dst, {dst} + made, word) && IsTree(entry, below) && entry in below
    requires entry.depth == dst.depth + 1 && entry.parent == dst && entry.word == word
    requires word in dst.children && dst.children[word] == entry
    requires dst.view.children.Keys == dst.children.Keys - {word}
    modifies dst
    ensures IsTree(dst, {dst} + made + below)
    ensures dst.view == if Stays(from.view, entry.view, keepUnknown)
                        then Trie(old(dst.view).children[word := entry.view]) else old(dst.view)
  {
    hide IsTree, IsShape, IsTreeBut;
    EmptyView(root, nodes, from);
    EmptyView(entry, below, entry);
    if !keepUnknown && from.children != map[] && entry.children == map[] {
      Delete(dst, {dst} + made, word);
    } else {
      Record(dst, {dst} + made, word, entry.view);
    }
    Hang(dst, {dst} + made, word, entry, below);
  }
}
