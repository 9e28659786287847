// Sorted lists of words, and the words of a command line (commandfinder.py,
// commandcompleter.py).

module CommandLines {

  // ---------- order ----------

  predicate Less(a: string, b: string) {
    b != "" && (a == "" || a[0] < b[0] || (a[0] == b[0] && Less(a[1..], b[1..])))
  }

  lemma {:induction false} LessIsTotal(a: string, b: string)
    ensures a != b ==> Less(a, b) || Less(b, a)
    ensures !(Less(a, b) && Less(b, a)) && !Less(a, a)
    decreases |a|
  {
    if a != "" {
      if b != "" {
        LessIsTotal(a[1..], b[1..]);
        assert a[0] == b[0] && a[1..] == b[1..] ==> a == [a[0]] + a[1..] && b == [b[0]] + b[1..];
      }
      LessIsTotal(a[1..], a[1..]);
    }
  }

  lemma {:induction false} LessIsTransitive(a: string, b: string, c: string)
    requires Less(a, b) && Less(b, c)
    ensures Less(a, c)
    decreases |a|
  {
    if a != "" && a[0] == b[0] == c[0] {
      LessIsTransitive(a[1..], b[1..], c[1..]);
    }
  }

  // Compares at the first difference; a beginning is less than what it begins.
  lemma {:induction false} LessMeaning(a: string, b: string)
    ensures Less(a, b) <==> (a < b || exists k :: FirstDifference(a, b, k) && a[k] < b[k])
    decreases |a|
  {
    if a != "" && b != "" && a[0] == b[0] {
      LessMeaning(a[1..], b[1..]);
      assert a < b <==> a[1..] < b[1..] by {
        assert a == [a[0]] + a[1..] && b == [b[0]] + b[1..];
      }
      forall k: int {
        DifferenceBehind(a, b, k);
      }
      hide FirstDifference;
      if k :| FirstDifference(a, b, k) && a[k] < b[k] {
        assert FirstDifference(a[1..], b[1..], k - 1);
      }
      if k :| FirstDifference(a[1..], b[1..], k) && a[1..][k] < b[1..][k] {
        assert FirstDifference(a, b, k + 1);
      }
    } else if a != "" && b != "" {
      assert a[..0] == b[..0];
      assert FirstDifference(a, b, 0);
      forall k: int ensures FirstDifference(a, b, k) ==> k == 0 {
        assert 0 < k < |a| && k < |b| ==> a[..k][0] == a[0] && b[..k][0] == b[0];
      }
    }
  }

  predicate FirstDifference(a: string, b: string, k: int) {
    0 <= k < |a| && k < |b| && a[..k] == b[..k] && a[k] != b[k]
  }

  lemma DifferenceBehind(a: string, b: string, k: int)
    requires a != "" && b != "" && a[0] == b[0]
    ensures FirstDifference(a, b, k) <==> FirstDifference(a[1..], b[1..], k - 1)
    ensures FirstDifference(a, b, k) ==> 0 < k < |a| && k < |b| && a[k] == a[1..][k - 1] && b[k] == b[1..][k - 1]
  {
    if 0 < k < |a| && k < |b| {
      assert a[..k] == [a[0]] + a[1..][..k - 1] && b[..k] == [b[0]] + b[1..][..k - 1];
      assert a[..k] == b[..k] ==> a[1..][..k - 1] == a[..k][1..] == b[1..][..k - 1];
    }
  }

  // In order, and nothing twice
  predicate Increasing(list: seq<string>) {
    forall i, j :: 0 <= i < j < |list| ==> Less(list[i], list[j])
  }

  // The place of a word in a sorted list
  method Place(list: seq<string>, word: string) returns (k: nat)
    requires Increasing(list) && word !in list
    ensures k <= |list|
    ensures forall i :: 0 <= i < k ==> Less(list[i], word)
    ensures forall i :: k <= i < |list| ==> Less(word, list[i])
  {
    k := 0;
    while k < |list| && Less(list[k], word)
      invariant k <= |list|
      invariant forall i :: 0 <= i < k ==> Less(list[i], word)
    {
      k := k + 1;
    }
    forall i | k <= i < |list| ensures Less(word, list[i]) {
      LessIsTotal(list[k], word);
      if k < i {
        LessIsTransitive(word, list[k], list[i]);
      }
    }
  }

  lemma Inserted(list: seq<string>, word: string, k: nat)
    requires Increasing(list) && k <= |list|
    requires forall i :: 0 <= i < k ==> Less(list[i], word)
    requires forall i :: k <= i < |list| ==> Less(word, list[i])
    ensures Increasing(list[..k] + [word] + list[k..])
    ensures forall w :: w in list[..k] + [word] + list[k..] <==> w in list || w == word
  {
    assert list == list[..k] + list[k..];
  }

  // sorted
  method Sorted(words: set<string>) returns (list: seq<string>)
    ensures Increasing(list)
    ensures forall w :: w in list <==> w in words
  {
    list := [];
    var rest := words;
    while rest != {}
      invariant rest <= words && Increasing(list)
      invariant forall w :: w in list <==> w in words - rest
      decreases |rest|
    {
      var word :| word in rest;
      var k := Place(list, word);
      Inserted(list, word, k);
      list := list[..k] + [word] + list[k..];
      rest := rest - {word};
    }
  }

  // An increasing list is determined by its words.
  lemma {:induction false} SortedIsUnique(a: seq<string>, b: seq<string>)
    requires Increasing(a) && Increasing(b) && forall w :: w in a <==> w in b
    ensures a == b
  {
    if b != [] {
      assert b[0] in b;
    }
    if a != [] {
      assert a[0] in a && a[0] in b;
      assert b[0] in b && b[0] in a;
      LessIsTotal(a[0], b[0]);
      assert a[0] == b[0];
      forall w ensures w in a[1..] <==> w in b[1..] {
        TailWords(a, w);
        TailWords(b, w);
      }
      SortedIsUnique(a[1..], b[1..]);
      assert a == [a[0]] + a[1..] && b == [b[0]] + b[1..];
    }
  }

  lemma TailWords(list: seq<string>, w: string)
    requires Increasing(list) && list != []
    ensures w in list[1..] <==> w in list && w != list[0]
  {
    LessIsTotal(list[0], list[0]);
    if w in list[1..] {
      var i :| 0 <= i < |list[1..]| && list[1..][i] == w;
      assert w == list[i + 1];
    }
  }

  // ---------- words of a line ----------

  predicate IsSpace(c: char) {
    c == ' ' || c == '\t' || c == '\n' || c == '\r' || c == '\U{0B}' || c == '\U{0C}'
  }

  predicate IsWord(w: string) {
    w != "" && forall c :: c in w ==> !IsSpace(c)
  }

  function WordEnd(line: string): (n: nat)
    ensures n <= |line|
    ensures forall i :: 0 <= i < n ==> !IsSpace(line[i])
    ensures n < |line| ==> IsSpace(line[n])
  {
    if line == "" || IsSpace(line[0]) then 0 else 1 + WordEnd(line[1..])
  }

  // split
  function Words(line: string): (words: seq<string>)
    ensures forall w :: w in words ==> IsWord(w)
    decreases |line|
  {
    if line == "" then []
    else if IsSpace(line[0]) then Words(line[1..])
    else [line[..WordEnd(line)]] + Words(line[WordEnd(line)..])
  }

  lemma {:induction false} WordEndBeforeSpace(a: string, s: char, b: string)
    requires IsSpace(s)
    ensures WordEnd(a + [s] + b) == WordEnd(a)
  {
    if a != "" && !IsSpace(a[0]) {
      WordEndBeforeSpace(a[1..], s, b);
      assert (a + [s] + b)[1..] == a[1..] + [s] + b;
    }
  }

  // Space between two parts of a line separates their words and adds none; more of it changes
  // nothing.
  lemma {:induction false} WordsAroundSpace(a: string, s: char, b: string)
    requires IsSpace(s)
    ensures Words(a + [s] + b) == Words(a) + Words(b)
    decreases |a|
  {
    var line := a + [s] + b;
    if a == "" {
      assert line[1..] == b;
    } else if IsSpace(a[0]) {
      WordsAroundSpace(a[1..], s, b);
      assert line[1..] == a[1..] + [s] + b;
    } else {
      WordEndBeforeSpace(a, s, b);
      var n := WordEnd(a);
      WordsAroundSpace(a[n..], s, b);
      hide IsSpace, WordEnd;
      CutLine(a, s, b, n);
      assert Words(line) == [a[..n]] + Words(a[n..] + [s] + b);
    }
  }

  lemma CutLine(a: string, s: char, b: string, n: nat)
    requires n <= |a|
    ensures (a + [s] + b)[..n] == a[..n] && (a + [s] + b)[n..] == a[n..] + [s] + b
  {
  }

  // A word by itself is one word, whole; space by itself has none.
  lemma {:induction false} WordAlone(w: string)
    requires IsWord(w)
    ensures Words(w) == [w]
  {
    WordEndOfWord(w);
    assert w[..|w|] == w && w[|w|..] == "";
    assert w[0] in w;
  }

  lemma {:induction false} WordEndOfWord(w: string)
    requires forall c :: c in w ==> !IsSpace(c)
    ensures WordEnd(w) == |w|
  {
    if w != "" {
      assert w[0] in w;
      assert forall c :: c in w[1..] ==> c in w;
      WordEndOfWord(w[1..]);
    }
  }

  lemma {:induction false} SpaceAlone(line: string)
    requires forall c :: c in line ==> IsSpace(c)
    ensures Words(line) == []
  {
    if line != "" {
      assert line[0] in line;
      assert forall c :: c in line[1..] ==> c in line;
      SpaceAlone(line[1..]);
    }
  }

  function Spaced(words: seq<string>): string {
    if words == [] then "" else words[0] + " " + Spaced(words[1..])
  }

  // Words written with a space behind each are read back.
  lemma {:induction false} WordsReadBack(words: seq<string>)
    requires forall w :: w in words ==> IsWord(w)
    ensures Words(Spaced(words)) == words
  {
    if words != [] {
      assert words[0] in words;
      WordsReadBack(words[1..]);
      WordAlone(words[0]);
      WordsAroundSpace(words[0], ' ', Spaced(words[1..]));
      assert words[0] + [' '] + Spaced(words[1..]) == Spaced(words);
      assert words == [words[0]] + words[1..];
    }
  }

  // rpartition at the last space
  function LastSpace(line: string): (at: int)
    ensures -1 <= at < |line|
    ensures at >= 0 ==> line[at] == ' '
    ensures forall i :: at < i < |line| ==> line[i] != ' '
  {
    if line == "" then -1
    else if line[|line| - 1] == ' ' then |line| - 1
    else LastSpace(line[..|line| - 1])
  }

  // The words typed before the last space, and what is being typed after it
  function Typed(line: string): seq<string> {
    if LastSpace(line) < 0 then [] else Words(line[..LastSpace(line)])
  }

  function Active(line: string): string {
    line[LastSpace(line) + 1..]
  }

  lemma {:induction false} LastSpaceOf(a: string, b: string)
    requires ' ' !in b
    ensures LastSpace(a + " " + b) == |a|
    decreases |b|
  {
    var line := a + " " + b;
    if b == "" {
      assert line == a + " ";
    } else {
      var shorter := b[..|b| - 1];
      assert line[..|line| - 1] == a + " " + shorter;
      assert line[|line| - 1] == b[|b| - 1] && b[|b| - 1] in b;
      assert forall c :: c in shorter ==> c in b;
      LastSpaceOf(a, shorter);
    }
  }

  lemma CutAtLastSpace(a: string, b: string)
    requires ' ' !in b
    ensures Typed(a + " " + b) == Words(a) && Active(a + " " + b) == b
  {
    hide Words, LastSpace;
    LastSpaceOf(a, b);
    assert (a + " " + b)[..|a|] == a;
  }

  // A line is what was typed, a space, and a word begun; further spaces before it are ignored.
  lemma TypedAndActive(a: string, b: string)
    requires ' ' !in b
    ensures Typed(a + " " + b) == Words(a) && Active(a + " " + b) == b
    ensures Typed(a + " " + " " + b) == Words(a) && Active(a + " " + " " + b) == b
    ensures Typed(b) == [] && Active(b) == b
  {
    CutAtLastSpace(a, b);
    CutAtLastSpace(a + " ", b);
    WordsAroundSpace(a, ' ', "");
    assert a + [' '] + "" == a + " ";
    assert forall i :: 0 <= i < |b| ==> b[i] in b;
  }

  // A line of words with a space behind each, and a word begun, is taken apart into just these.
  lemma TypedReadBack(words: seq<string>, begun: string)
    requires forall w :: w in words ==> IsWord(w)
    requires ' ' !in begun
    ensures Typed(Spaced(words) + begun) == words && Active(Spaced(words) + begun) == begun
  {
    hide Words, IsWord, LastSpace;
    WordsReadBack(words);
    SpaceAlone("");
    if words == [] {
      assert Spaced(words) + begun == begun;
      TypedAndActive("", begun);
    } else {
      SpacedEndsInSpace(words);
      var typed := Spaced(words);
      var a := typed[..|typed| - 1];
      assert typed == a + " ";
      TypedAndActive(a, begun);
      assert a + " " + begun == typed + begun;
      WordsAroundSpace(a, ' ', "");
      assert a + [' '] + "" == typed;
    }
  }

  lemma {:induction false} SpacedEndsInSpace(words: seq<string>)
    requires words != []
    ensures Spaced(words) != "" && Spaced(words)[|Spaced(words)| - 1] == ' '
  {
    if |words| > 1 {
      SpacedEndsInSpace(words[1..]);
    }
  }
}
