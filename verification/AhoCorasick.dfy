/**
 The multi-pattern matcher of my_trie.h: a trie whose nodes chain their siblings through
 `next` and carry one Aho-Corasick failure link each. Building the trie and its failure links
 happens elsewhere; the predicates `Trie.Valid` and `Trie.FailLinked` say what is built.
 */
module AhoCorasick {
  import opened Bytes

  type Word = seq<byte>

  // ---------- the words that label paths ----------

  ghost predicate IsSuffix(s: Word, t: Word) {
    |s| <= |t| && t[|t| - |s|..] == s
  }

  /** Every word can lose its last byte and still be a word: true of the paths of any trie. */
  ghost predicate PrefixClosed(words: set<Word>) {
    && [] in words
    && forall w :: w in words && w != [] ==> w[..|w| - 1] in words
  }

  /** The longest suffix of t that is a word. */
  ghost function LongestSuffix(words: set<Word>, t: Word): Word
    requires [] in words
  {
    if t in words then t else LongestSuffix(words, t[1..])
  }

  lemma {:induction false} SuffixIsLongest(words: set<Word>, t: Word)
    requires [] in words
    ensures LongestSuffix(words, t) in words && IsSuffix(LongestSuffix(words, t), t)
    ensures forall w :: w in words && IsSuffix(w, t) ==> |w| <= |LongestSuffix(words, t)|
  {
    if t !in words {
      SuffixIsLongest(words, t[1..]);
      var s := LongestSuffix(words, t);
      assert t[1..][|t| - 1 - |s|..] == t[|t| - |s|..];
      forall w | w in words && IsSuffix(w, t) ensures IsSuffix(w, t[1..]) {
        assert |w| == |t| ==> w == t;
        assert t[1..][|t| - 1 - |w|..] == t[|t| - |w|..];
      }
    }
  }

  /** What the matcher remembers of the text is all it needs to read the next byte. */
  lemma {:induction false} ReadOneByte(words: set<Word>, t: Word, c: byte)
    requires PrefixClosed(words)
    ensures LongestSuffix(words, t + [c]) == LongestSuffix(words, LongestSuffix(words, t) + [c])
  {
    if t in words {
    } else {
      assert (t + [c])[..|t + [c]| - 1] == t;
      assert t + [c] !in words;
      assert (t + [c])[1..] == t[1..] + [c];
      ReadOneByte(words, t[1..], c);
    }
  }

  /** A node without an edge for c hands over to its failure node. */
  lemma FollowFailure(words: set<Word>, w: Word, c: byte)
    requires PrefixClosed(words)
    requires w in words && w != [] && w + [c] !in words
    ensures LongestSuffix(words, w + [c]) == LongestSuffix(words, LongestSuffix(words, w[1..]) + [c])
  {
    assert (w + [c])[1..] == w[1..] + [c];
    ReadOneByte(words, w[1..], c);
  }

  // ---------- what a match report is worth ----------

  /** No key hides at the end of a path that is not itself a key. */
  ghost predicate KeysShowThrough(words: set<Word>, keys: set<Word>) {
    forall w, k :: w in words && k in keys && IsSuffix(k, w) ==> w in keys
  }

  ghost predicate EndsInKey(keys: set<Word>, t: Word) {
    exists k :: k in keys && IsSuffix(k, t)
  }

  lemma SuffixTransitive(a: Word, b: Word, t: Word)
    requires IsSuffix(b, t)
    ensures IsSuffix(a, b) ==> IsSuffix(a, t)
    ensures IsSuffix(a, t) && |a| <= |b| ==> IsSuffix(a, b)
  {
  }

  /** What the matcher answers after reading t: the length of the path it stands on if that is a key, else 0. */
  ghost function Report(words: set<Word>, keys: set<Word>, t: Word): nat
    requires [] in words
  {
    var s := LongestSuffix(words, t);
    if s in keys then |s| else 0
  }

  /** A reported match is the longest key that ends the text. */
  lemma ReportIsLongestKey(words: set<Word>, keys: set<Word>, t: Word)
    requires [] in words && keys <= words
    requires Report(words, keys, t) > 0
    ensures var n := Report(words, keys, t);
            n <= |t| && t[|t| - n..] in keys && forall k :: k in keys && IsSuffix(k, t) ==> |k| <= n
  {
    SuffixIsLongest(words, t);
  }

  /** The last n bytes of the text are a key, and no longer suffix of the text is a path. */
  ghost predicate Matches(words: set<Word>, keys: set<Word>, t: Word, n: nat) {
    && 0 < n <= |t| && t[|t| - n..] in keys
    && forall w :: w in words && IsSuffix(w, t) ==> |w| <= n
  }

  /** The answer is n exactly when the text ends in a key of n bytes that no longer path covers; else it is 0. */
  lemma ReportExactlyWhen(words: set<Word>, keys: set<Word>, t: Word)
    requires [] in words && keys <= words && [] !in keys
    ensures forall n: nat :: n > 0 ==> (Report(words, keys, t) == n <==> Matches(words, keys, t, n))
    ensures KeysShowThrough(words, keys) ==> (Report(words, keys, t) > 0 <==> EndsInKey(keys, t))
  {
    var s := LongestSuffix(words, t);
    SuffixIsLongest(words, t);
    forall n: nat | n > 0 && Matches(words, keys, t, n) ensures s == t[|t| - n..] {
      assert IsSuffix(t[|t| - n..], t);
    }
    if KeysShowThrough(words, keys) {
      MissesNoKeyExactlyWhen(words, keys);
      assert s in keys ==> s != [];
    }
  }

  /**
   The matcher looks only at the node it stands on, so it can miss a key that ends the text.
   It misses none, on any text, exactly when every path ending in a key is itself a key.
   */
  lemma MissesNoKeyExactlyWhen(words: set<Word>, keys: set<Word>)
    requires [] in words && keys <= words
    ensures (forall t :: LongestSuffix(words, t) in keys <==> EndsInKey(keys, t))
       <==> KeysShowThrough(words, keys)
  {
    if KeysShowThrough(words, keys) {
      forall t ensures LongestSuffix(words, t) in keys <==> EndsInKey(keys, t) {
        var s := LongestSuffix(words, t);
        SuffixIsLongest(words, t);
        if EndsInKey(keys, t) {
          var k :| k in keys && IsSuffix(k, t);
          SuffixTransitive(k, s, t);
        }
      }
    }
    if forall t :: LongestSuffix(words, t) in keys <==> EndsInKey(keys, t) {
      forall w, k | w in words && k in keys && IsSuffix(k, w) ensures w in keys {
        assert EndsInKey(keys, w);
        assert LongestSuffix(words, w) == w;
      }
    }
  }

  /** With the keys "abc" and "b", the text "ab" ends in a key that is not reported. */
  lemma HiddenKeyIsMissed()
    ensures var words: set<Word> := {[], [97], [97, 98], [97, 98, 99], [98]};
            var keys: set<Word> := {[97, 98, 99], [98]};
            && PrefixClosed(words) && keys <= words
            && EndsInKey(keys, [97, 98])
            && LongestSuffix(words, [97, 98]) !in keys
  {
    var keys: set<Word> := {[97, 98, 99], [98]};
    var t: Word := [97, 98];
    assert [98] in keys && IsSuffix([98], t);
    assert [97, 98, 99][..2] == [97, 98] && [97, 98][..1] == [97] && [97][..0] == [] && [98][..0] == [];
  }

  // ---------- the trie in memory ----------

  class TrieNode {
    var leaf: nat        // depth of the node when a key ends here, else 0
    var c: byte          // label of the edge into the node
    var next: TrieNode?  // next sibling
    var links: TrieNode? // first child
    var fail: TrieNode?  // failure link

    constructor (leaf: nat, c: byte)
      ensures this.leaf == leaf && this.c == c && next == null && links == null && fail == null
    {
      this.leaf, this.c := leaf, c;
      next, links, fail := null, null, null;
    }
  }

  /** The i-th element of a sibling list, or null past its end. */
  ghost function At(kids: seq<TrieNode>, i: nat): TrieNode? {
    if i < |kids| then kids[i] else null
  }

  class Trie {
    const root: TrieNode
    ghost const path: map<TrieNode, Word>           // the word spelled on the way to each node
    ghost const kids: map<TrieNode, seq<TrieNode>>  // the sibling list below each node

    /** Takes over nodes that are already linked up. */
    constructor (root: TrieNode, ghost path: map<TrieNode, Word>, ghost kids: map<TrieNode, seq<TrieNode>>)
      ensures this.root == root && this.path == path && this.kids == kids
    {
      this.root, this.path, this.kids := root, path, kids;
    }

    ghost predicate Valid()
      reads path.Keys
    {
      && root in path && path[root] == []
      && kids.Keys == path.Keys
      && (forall n {:trigger SpelledOnce(n)} :: n in path ==> SpelledOnce(n))
      && (forall n {:trigger ChildrenLinked(n)} :: n in path ==> ChildrenLinked(n))
      && (forall n {:trigger HasParent(n)} :: n in path && n != root ==> HasParent(n))
    }

    /** No other node has the path of n, and a key that ends at n is marked by its length. */
    ghost predicate SpelledOnce(n: TrieNode)
      reads path.Keys
    {
      && n in path
      && (forall m :: m in path && path[m] == path[n] ==> m == n)
      && (n.leaf > 0 ==> n.leaf == |path[n]|)
    }

    lemma KeyMark(n: TrieNode)
      requires Valid() && n in path
      ensures path[n] in Words()
      ensures n.leaf == if path[n] in Keys() then |path[n]| else 0
      ensures path[n] in Keys() <==> n.leaf > 0
    {
      assert SpelledOnce(n);
    }

    /** The children of n hang on `links` and `next`, each one byte further than n. */
    ghost predicate ChildrenLinked(n: TrieNode)
      reads path.Keys
    {
      && n in path && n in kids
      && n.links == At(kids[n], 0)
      && (forall i :: 0 <= i < |kids[n]| ==>
            kids[n][i] in path && path[kids[n][i]] == path[n] + [kids[n][i].c])
      && (forall i {:trigger kids[n][i].next} :: 0 <= i < |kids[n]| ==>
            kids[n][i].next == At(kids[n], i + 1))
    }

    ghost predicate HasParent(m: TrieNode)
    {
      exists n :: n in kids && m in kids[n]
    }

    ghost function Words(): set<Word>
    {
      path.Values
    }

    ghost function Keys(): set<Word>
      reads path.Keys
    {
      set n | n in path && n.leaf > 0 :: path[n]
    }

    /** Each failure link leads to the longest proper suffix of its node that is a path. */
    ghost predicate FailLinked()
      reads path.Keys
    {
      forall n {:trigger FailsRight(n)} :: n in path && n != root ==> FailsRight(n)
    }

    ghost predicate FailsRight(n: TrieNode)
      reads path.Keys
    {
      && [] in Words()
      && n in path && path[n] != []
      && n.fail != null && n.fail in path
      && path[n.fail] == LongestSuffix(Words(), path[n][1..])
    }

    /** A node other than the root is on the sibling list of the node one byte shorter. */
    lemma Parent(m: TrieNode) returns (n: TrieNode, i: nat)
      requires Valid() && m in path && m != root
      ensures n in path && i < |kids[n]| && kids[n][i] == m && path[m] == path[n] + [m.c]
    {
      assert HasParent(m);
      n :| n in kids && m in kids[n];
      assert ChildrenLinked(n);
      i :| i < |kids[n]| && kids[n][i] == m;
    }

    /** A word one byte longer than a node belongs to one of the children of the node. */
    lemma LongerWordIsChild(node: TrieNode, m: TrieNode, c: byte)
      requires Valid() && node in path && m in path
      requires path[m] == path[node] + [c]
      ensures m in kids[node] && m.c == c
    {
      var n, i := Parent(m);
      assert SpelledOnce(node);
      assert path[n] == (path[n] + [m.c])[..|path[n]|] == path[node];
      assert m.c == (path[n] + [m.c])[|path[n]|];
    }

    lemma NoChildNoWord(node: TrieNode, c: byte)
      requires Valid() && node in path
      requires forall i :: 0 <= i < |kids[node]| ==> kids[node][i].c != c
      ensures path[node] + [c] !in Words()
    {
      forall m | m in path ensures path[m] != path[node] + [c] {
        if path[m] == path[node] + [c] {
          LongerWordIsChild(node, m, c);
        }
      }
    }

    lemma WordsArePrefixClosed()
      requires Valid()
      ensures PrefixClosed(Words())
      ensures Keys() <= Words() && [] !in Keys()
    {
      assert [] in Words() by { assert path[root] == []; }
      forall n | n in path && n.leaf > 0 ensures path[n] != [] {
        assert SpelledOnce(n);
      }
      forall w | w in Words() && w != [] ensures w[..|w| - 1] in Words() {
        var m :| m in path && path[m] == w;
        var n, i := Parent(m);
        assert w[..|w| - 1] == path[n];
      }
    }

    /** `trie_goto`: the child for c; the root stands in for itself, other nodes give up. */
    method Goto(node: TrieNode, c: byte) returns (target: TrieNode?)
      requires Valid() && node in path
      ensures path[node] + [c] in Words() ==>
                target != null && target in path && path[target] == path[node] + [c]
      ensures path[node] + [c] !in Words() ==> target == if node == root then root else null
    {
      var next := node.links;
      ghost var i := 0;
      assert ChildrenLinked(node);
      while next != null
        invariant 0 <= i <= |kids[node]| && next == At(kids[node], i)
        invariant forall k :: 0 <= k < i ==> kids[node][k].c != c
        decreases |kids[node]| - i
      {
        if next.c == c {
          assert next == kids[node][i];
          return next;
        }
        next := next.next;
        i := i + 1;
      }
      NoChildNoWord(node, c);
      if root == node {
        return root;
      }
      return null;
    }

    /** What the answer means, in a trie. */
    ghost predicate IsAnswer(matched: nat, text: Word)
      reads path.Keys
    {
      && (forall n: nat :: n > 0 ==> (matched == n <==> Matches(Words(), Keys(), text, n)))
      && (KeysShowThrough(Words(), Keys()) ==> (matched > 0 <==> EndsInKey(Keys(), text)))
    }

    lemma ReportMeans(text: Word)
      requires Valid()
      ensures [] in Words() && IsAnswer(Report(Words(), Keys(), text), text)
    {
      WordsArePrefixClosed();
      ReportExactlyWhen(Words(), Keys(), text);
    }

    /** The body of `ac_trie_next`: from the node that remembers `text` to the one that remembers one byte more. */
    method Step(node: TrieNode, c: byte, ghost text: Word) returns (target: TrieNode, matched: nat)
      requires Valid() && FailLinked()
      requires node in path && path[node] == LongestSuffix(Words(), text)
      ensures target in path && path[target] == LongestSuffix(Words(), text + [c])
      ensures matched == Report(Words(), Keys(), text + [c]) && IsAnswer(matched, text + [c])
    {
      ghost var words, read := Words(), text + [c];
      WordsArePrefixClosed();
      ReadOneByte(words, text, c);
      var from := node;
      var next := Goto(from, c);
      while next == null
        invariant from in path
        invariant LongestSuffix(words, read) == LongestSuffix(words, path[from] + [c])
        invariant path[from] + [c] in words ==>
                    next != null && next in path && path[next] == path[from] + [c]
        invariant path[from] + [c] !in words ==>
                    next == if from == root then root else null
        decreases |path[from]|
      {
        assert FailsRight(from);
        FollowFailure(words, path[from], c);
        SuffixIsLongest(words, path[from][1..]);
        from := from.fail;
        next := Goto(from, c);
      }
      if path[from] + [c] !in words {
        assert (path[from] + [c])[1..] == [];
      }
      KeyMark(next);
      ReportMeans(text + [c]);
      target, matched := next, next.leaf;
    }

    /** `trie_search`: true exactly for the keys. */
    method Search(key: Word) returns (found: bool)
      requires Valid()
      ensures found <==> key in Keys()
    {
      var node: TrieNode := root;
      for k := 0 to |key|
        invariant node in path && path[node] == key[..k]
      {
        ghost var siblings, i := kids[node], 0;
        assert ChildrenLinked(node);
        var child := node.links;
        if child == null {
          NotBeyond(key, k, node);
          return false;
        }
        while key[k] != child.c
          invariant 0 <= i < |siblings| && child == siblings[i]
          invariant forall j :: 0 <= j < i ==> siblings[j].c != key[k]
          decreases |siblings| - i
        {
          if child.next == null {
            NotBeyond(key, k, node);
            return false;
          }
          child, i := child.next, i + 1;
        }
        assert key[..k + 1] == key[..k] + [key[k]];
        node := child;
      }
      assert key[..|key|] == key;
      KeyMark(node);
      found := node.leaf > 0;
    }

    /** The same question put to `trie_goto`, byte by byte, taking the root for a missing edge: the same answer. */
    method SearchByGoto(key: Word) returns (found: bool)
      requires Valid()
      ensures found <==> key in Keys()
    {
      var node: TrieNode := root;
      for k := 0 to |key|
        invariant node in path && path[node] == key[..k]
      {
        var child := Goto(node, key[k]);
        if child == null || child == root {
          assert path[root] == [];
          NoWordBeyond(key, k);
          return false;
        }
        assert key[..k + 1] == key[..k] + [key[k]];
        node := child;
      }
      assert key[..|key|] == key;
      KeyMark(node);
      found := node.leaf > 0;
    }

    /** The path of a key does not break off below any of its nodes. */
    lemma NotBeyond(key: Word, k: nat, node: TrieNode)
      requires Valid() && k < |key| && node in path && path[node] == key[..k]
      requires forall i :: 0 <= i < |kids[node]| ==> kids[node][i].c != key[k]
      ensures key !in Keys()
    {
      NoChildNoWord(node, key[k]);
      NoWordBeyond(key, k);
    }

    lemma {:induction false} NoWordBeyond(key: Word, k: nat)
      requires Valid() && k < |key|
      requires key[..k] + [key[k]] !in Words()
      ensures key !in Words() && key !in Keys()
      decreases |key|
    {
      WordsArePrefixClosed();
      if k == |key| - 1 {
        assert key == key[..k] + [key[k]];
      } else {
        var shorter := key[..|key| - 1];
        assert shorter[..k] == key[..k] && shorter[k] == key[k];
        NoWordBeyond(shorter, k);
      }
    }
  }

  /** The matcher: `text` is everything it has read so far. */
  class AcTrieState {
    const trie: Trie
    var node: TrieNode
    ghost var text: Word

    ghost predicate Valid()
      reads this, trie.path.Keys
    {
      && trie.Valid() && trie.FailLinked()
      && node in trie.path
      && trie.path[node] == LongestSuffix(trie.Words(), text)
    }

    /** `ac_trie_init`: nothing read, standing on the root. */
    constructor (trie: Trie)
      requires trie.Valid() && trie.FailLinked()
      ensures Valid() && this.trie == trie && text == []
    {
      this.trie := trie;
      node := trie.root;
      text := [];
    }

    /**
     `ac_trie_next`: after any text the state spells the longest suffix of the text that is a
     path, and the answer is the length of the key that ends there and that no longer path covers, or 0
     if there is none. If no key hides at the end of a longer path it is positive whenever a key ends there.
     */
    method Next(c: byte) returns (matched: nat)
      requires Valid()
      modifies this
      ensures Valid() && text == old(text) + [c]
      ensures matched == Report(trie.Words(), trie.Keys(), text)
      ensures trie.IsAnswer(matched, text)
    {
      node, matched := trie.Step(node, c, text);
      text := text + [c];
    }
  }
}
