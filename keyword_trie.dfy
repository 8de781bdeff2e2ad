/**
 * keyword_trie.go: a prefix trie over keyword strings, queried for the
 * longest registered keyword at the head of a rune stream. Each node keeps two
 * parallel lists, `runes` (the next rune) and `children` (the node reached by
 * it), and `leaf`, the keyword that ends at this node or "" when none does.
 * Nodes are values here: `Add` returns the updated trie.
 */
module KeywordTries {

  datatype KeywordTrie = KeywordTrie(children: seq<KeywordTrie>, runes: seq<char>, leaf: string)

  /** `&KeywordTrie{}`. */
  const Empty: KeywordTrie := KeywordTrie([], [], "")

  /** Index of the first occurrence of `c` in `runes`, or `|runes|` when there is none. */
  function IndexOf(runes: seq<char>, c: char): (i: nat)
    ensures i <= |runes|
    ensures i < |runes| ==> runes[i] == c
    ensures forall j :: 0 <= j < i ==> runes[j] != c
  {
    if runes == [] then 0
    else if runes[0] == c then 0
    else 1 + IndexOf(runes[1..], c)
  }

  /** `runes` and `children` are parallel lists at every node. */
  ghost predicate Parallel(t: KeywordTrie)
    decreases t
  {
    && |t.children| == |t.runes|
    && forall i :: 0 <= i < |t.children| ==> Parallel(t.children[i])
  }

  /**
   * The invariant that `add` keeps at a node reached from the root by `path`:
   * parallel lists, pairwise distinct runes, and a `leaf` that is either ""
   * or the string spelled by the path.
   */
  ghost predicate Valid(t: KeywordTrie, path: string)
    decreases t
  {
    && |t.children| == |t.runes|
    && (forall i, j :: 0 <= i < j < |t.runes| ==> t.runes[i] != t.runes[j])
    && (t.leaf == "" || t.leaf == path)
    && forall i :: 0 <= i < |t.children| ==> Valid(t.children[i], path + [t.runes[i]])
  }

  lemma {:induction false} ValidIsParallel(t: KeywordTrie, path: string)
    requires Valid(t, path)
    ensures Parallel(t)
    decreases t
  {
    forall i | 0 <= i < |t.children|
      ensures Parallel(t.children[i])
    {
      ValidIsParallel(t.children[i], path + [t.runes[i]]);
    }
  }

  /** The keywords stored in the trie: every non-empty `leaf`. */
  ghost function Keys(t: KeywordTrie): set<string>
    decreases t, 1
  {
    (if t.leaf != "" then {t.leaf} else {}) + ChildKeys(t, |t.children|)
  }

  /** The keywords below the first `n` children of `t`. */
  ghost function ChildKeys(t: KeywordTrie, n: nat): set<string>
    requires n <= |t.children|
    decreases t, 0, n
  {
    if n == 0 then {} else ChildKeys(t, n - 1) + Keys(t.children[n - 1])
  }

  /**
   * Where every key of a valid subtree lives: it extends `path`; it is `leaf`
   * if it is exactly as long as `path`; otherwise it lies below the child
   * whose rune comes next.
   */
  lemma {:induction false} KeysBelow(t: KeywordTrie, path: string)
    requires Valid(t, path)
    ensures forall k :: k in Keys(t) ==>
      && k != ""
      && path <= k
      && (|k| == |path| ==> k == t.leaf)
      && (|k| > |path| ==>
            && IndexOf(t.runes, k[|path|]) < |t.runes|
            && k in Keys(t.children[IndexOf(t.runes, k[|path|])]))
    decreases t, 1
  {
    ChildKeysBelow(t, path, |t.children|);
  }

  lemma {:induction false} ChildKeysBelow(t: KeywordTrie, path: string, n: nat)
    requires Valid(t, path) && n <= |t.children|
    ensures forall k :: k in ChildKeys(t, n) ==>
      && k != ""
      && |k| > |path|
      && path <= k
      && IndexOf(t.runes, k[|path|]) < n
      && k in Keys(t.children[IndexOf(t.runes, k[|path|])])
    decreases t, 0, n
  {
    if n > 0 {
      ChildKeysBelow(t, path, n - 1);
      forall k | k in Keys(t.children[n - 1])
        ensures k != "" && |k| > |path| && path <= k && IndexOf(t.runes, k[|path|]) == n - 1
      {
        ChildKeyRune(t, path, n - 1, k);
      }
    }
  }

  /** A key below child `j` continues the path with `runes[j]`, so the lookup of that rune finds `j`. */
  lemma ChildKeyRune(t: KeywordTrie, path: string, j: nat, k: string)
    requires Valid(t, path) && j < |t.children|
    ensures k in Keys(t.children[j]) ==>
      && k != ""
      && |k| > |path|
      && path <= k
      && k[|path|] == t.runes[j]
      && IndexOf(t.runes, k[|path|]) == j
    decreases t, 0, 0
  {
    var p := path + [t.runes[j]];
    KeysBelow(t.children[j], p);
    if k in Keys(t.children[j]) {
      assert k[..|p|] == p;
      assert k[|path|] == p[|path|];
      assert k[..|path|] == p[..|path|];
    }
  }

  lemma {:induction false} ChildKeysContains(t: KeywordTrie, n: nat, j: nat)
    requires j < n <= |t.children|
    ensures Keys(t.children[j]) <= ChildKeys(t, n)
    decreases n
  {
    if j < n - 1 {
      ChildKeysContains(t, n - 1, j);
    }
  }

  /**
   * `r` is what a longest-match lookup of `stream` must return among `keys`:
   * the longest key that is a prefix of `stream`, or "" when no key is.
   */
  ghost predicate IsLongestMatch(keys: set<string>, stream: string, r: string) {
    if r == "" then
      forall k :: k in keys ==> !(k <= stream)
    else
      && r in keys
      && r <= stream
      && forall k :: k in keys && k <= stream ==> |k| <= |r|
  }

  /** There is only one longest match: the lookup's result is determined by the keys alone. */
  lemma LongestMatchUnique(keys: set<string>, stream: string, r1: string, r2: string)
    requires "" !in keys
    requires IsLongestMatch(keys, stream, r1) && IsLongestMatch(keys, stream, r2)
    ensures r1 == r2
  {
    if r1 != "" && r2 != "" {
      assert |r1| == |r2|;
      assert r1 == stream[..|r1|] == r2;
    }
  }

  /**
   * `Match`: descend one rune of `stream` per level along the matching edge,
   * and answer the deepest `leaf` found on the way (falling back to this
   * node's `leaf` when the deeper lookup finds nothing).
   */
  function Match(t: KeywordTrie, stream: seq<char>): (r: string)
    requires Parallel(t)
    decreases t
  {
    if |stream| == 0 then t.leaf
    else
      var idx := IndexOf(t.runes, stream[0]);
      if idx < |t.runes| then
        var result := Match(t.children[idx], stream[1..]);
        if result == "" then t.leaf else result
      else
        t.leaf
  }

  /** `Match` returns the longest registered keyword that is a prefix of the stream. */
  lemma {:induction false} MatchIsLongest(t: KeywordTrie, path: string, stream: seq<char>)
    requires Valid(t, path)
    ensures Parallel(t)
    ensures IsLongestMatch(Keys(t), path + stream, Match(t, stream))
    decreases t
  {
    ValidIsParallel(t, path);
    if |stream| == 0 {
      KeysBelow(t, path);
      assert path + stream == path;
    } else {
      var idx := IndexOf(t.runes, stream[0]);
      if idx < |t.runes| {
        var c, p := t.children[idx], path + [t.runes[idx]];
        assert p + stream[1..] == path + stream;
        MatchIsLongest(c, p, stream[1..]);
        MatchThroughChild(t, path, stream, Match(c, stream[1..]));
      } else {
        KeysBelow(t, path);
        assert t.leaf != "" ==> t.leaf in Keys(t) && t.leaf <= path + stream;
        forall k | k in Keys(t) && k <= path + stream
          ensures k == t.leaf
        {
          LongKeyFollowsEdge(t, path, stream, k);
        }
      }
    }
  }

  /** A key longer than `path` that starts `path + stream` lies below the edge labelled `stream[0]`. */
  lemma LongKeyFollowsEdge(t: KeywordTrie, path: string, stream: seq<char>, k: string)
    requires Valid(t, path) && |stream| > 0
    requires k in Keys(t) && k <= path + stream
    ensures |k| > |path| ==>
      && IndexOf(t.runes, stream[0]) < |t.runes|
      && k in Keys(t.children[IndexOf(t.runes, stream[0])])
    ensures |k| <= |path| ==> k == t.leaf
  {
    KeysBelow(t, path);
    if |k| > |path| {
      assert k[|path|] == (path + stream)[|path|] == stream[0];
    }
  }

  /** The inductive step of `Match`: the child's answer, or this node's `leaf` when it has none. */
  lemma MatchThroughChild(t: KeywordTrie, path: string, stream: seq<char>, result: string)
    requires Valid(t, path) && |stream| > 0
    requires IndexOf(t.runes, stream[0]) < |t.runes|
    requires IsLongestMatch(Keys(t.children[IndexOf(t.runes, stream[0])]), path + stream, result)
    ensures IsLongestMatch(Keys(t), path + stream, if result == "" then t.leaf else result)
  {
    var idx := IndexOf(t.runes, stream[0]);
    var c := t.children[idx];
    ChildKeysContains(t, |t.children|, idx);
    forall k | k in Keys(t) && k <= path + stream
      ensures k in Keys(c) || k == t.leaf
    {
      LongKeyFollowsEdge(t, path, stream, k);
    }
    ChildKeyRune(t, path, idx, result);
    KeysBelow(t, path);
  }

  /** `MatchStr`/`Match` from the root: the longest keyword that starts `stream`, or "". */
  lemma MatchFromRoot(t: KeywordTrie, stream: seq<char>)
    requires Valid(t, "")
    ensures Parallel(t)
    ensures IsLongestMatch(Keys(t), stream, Match(t, stream))
  {
    MatchIsLongest(t, "", stream);
    assert "" + stream == stream;
  }

  /** What a caller of `Match` on a valid trie relies on: the answer starts the stream. */
  lemma MatchIsPrefix(t: KeywordTrie, stream: seq<char>)
    requires Valid(t, "")
    ensures Parallel(t)
    ensures Match(t, stream) <= stream
  {
    MatchFromRoot(t, stream);
  }

  /** A non-empty answer of `Match` on a valid trie is a registered keyword. */
  lemma MatchIsKey(t: KeywordTrie, stream: seq<char>)
    requires Valid(t, "")
    ensures Parallel(t)
    ensures Match(t, stream) == "" || Match(t, stream) in Keys(t)
  {
    MatchFromRoot(t, stream);
  }

  /** `Contains`: `str` is a registered keyword, or it is the empty string. */
  function Contains(t: KeywordTrie, str: string): (b: bool)
    requires Valid(t, "")
    ensures b <==> str == "" || str in Keys(t)
  {
    MatchFromRoot(t, str);
    KeysBelow(t, "");
    Match(t, str) == str
  }

  /** The number of non-empty leaves, which `Count` sums up. */
  ghost function LeafCount(t: KeywordTrie): nat
    decreases t, 1
  {
    (if t.leaf != "" then 1 else 0) + ChildLeafCount(t, |t.children|)
  }

  ghost function ChildLeafCount(t: KeywordTrie, n: nat): nat
    requires n <= |t.children|
    decreases t, 0, n
  {
    if n == 0 then 0 else ChildLeafCount(t, n - 1) + LeafCount(t.children[n - 1])
  }

  /** `Count`: one for a keyword ending here, plus the count of each child. */
  method Count(t: KeywordTrie) returns (n: nat)
    decreases t
    ensures n == LeafCount(t)
  {
    var sum := if t.leaf != "" then 1 else 0;
    var i := 0;
    while i < |t.children|
      invariant 0 <= i <= |t.children|
      invariant sum == (if t.leaf != "" then 1 else 0) + ChildLeafCount(t, i)
    {
      var c := Count(t.children[i]);
      sum := sum + c;
      i := i + 1;
    }
    n := sum;
  }

  /** In a valid trie the leaves are distinct keywords, so `Count` is the number of keywords. */
  lemma {:induction false} LeafCountIsKeys(t: KeywordTrie, path: string)
    requires Valid(t, path)
    ensures LeafCount(t) == |Keys(t)|
    decreases t, 1
  {
    ChildLeafCountIsKeys(t, path, |t.children|);
    ChildKeysBelow(t, path, |t.children|);
  }

  lemma {:induction false} ChildLeafCountIsKeys(t: KeywordTrie, path: string, n: nat)
    requires Valid(t, path) && n <= |t.children|
    ensures ChildLeafCount(t, n) == |ChildKeys(t, n)|
    decreases t, 0, n
  {
    if n > 0 {
      ChildLeafCountIsKeys(t, path, n - 1);
      LeafCountIsKeys(t.children[n - 1], path + [t.runes[n - 1]]);
      var m := n - 1;
      var before, last := ChildKeys(t, m), Keys(t.children[m]);
      assert before * last == {} by {
        ChildKeysBelow(t, path, m);
        forall k | k in before
          ensures k !in last
        {
          ChildKeyRune(t, path, m, k);
        }
      }
      assert ChildKeys(t, n) == before + last;
      assert |before + last| == |before| + |last|;
    }
  }

  /** `Count` of a valid trie is the number of distinct keywords it holds. */
  lemma CountIsKeywordCount(t: KeywordTrie, path: string)
    requires Valid(t, path)
    ensures LeafCount(t) == |Keys(t)|
    ensures t == Empty ==> LeafCount(t) == 0
  {
    LeafCountIsKeys(t, path);
  }

  /**
   * `add`: registers `orig`, of which the node `t` (reached by `path`) has
   * already consumed `path` and `keyword` is what remains; nodes are created
   * along the way as needed.
   */
  method AddRunes(t: KeywordTrie, ghost path: string, orig: string, keyword: seq<char>)
    returns (t': KeywordTrie)
    requires Valid(t, path)
    requires orig == path + keyword
    decreases |keyword|
    ensures Valid(t', path)
    ensures Keys(t') == if orig == "" then Keys(t) else Keys(t) + {orig}
    ensures orig in Keys(t) || orig == "" ==> t' == t
  {
    if |keyword| == 0 {
      t' := t.(leaf := orig);
      SetLeaf(t, path);
      return;
    }
    var next := keyword[0];
    var idx := 0;
    while idx < |t.runes| && t.runes[idx] != next
      invariant 0 <= idx <= |t.runes|
      invariant forall j :: 0 <= j < idx ==> t.runes[j] != next
    {
      idx := idx + 1;
    }
    assert orig[|path|] == next && orig == (path + [next]) + keyword[1..];
    if idx < |t.runes| {
      var c' := AddRunes(t.children[idx], path + [next], orig, keyword[1..]);
      t' := t.(children := t.children[idx := c']);
      ReplaceChild(t, path, idx, c', orig);
    } else {
      var child := AddRunes(Empty, path + [next], orig, keyword[1..]);
      t' := KeywordTrie(t.children + [child], t.runes + [next], t.leaf);
      AppendChild(t, path, next, child, orig);
    }
  }

  /** Setting `leaf` to the node's own path records exactly that keyword. */
  lemma SetLeaf(t: KeywordTrie, path: string)
    requires Valid(t, path)
    ensures Valid(t.(leaf := path), path)
    ensures Keys(t.(leaf := path)) == if path == "" then Keys(t) else Keys(t) + {path}
    ensures path in Keys(t) || path == "" ==> t.(leaf := path) == t
  {
    var u := t.(leaf := path);
    ChildKeysSameChildren(t, u, |t.children|);
    KeysBelow(t, path);
  }

  lemma ValidReplaceChild(t: KeywordTrie, path: string, idx: nat, c': KeywordTrie)
    requires Valid(t, path) && idx < |t.children|
    requires Valid(c', path + [t.runes[idx]])
    ensures Valid(t.(children := t.children[idx := c']), path)
  {
  }

  lemma ValidAppendChild(t: KeywordTrie, path: string, next: char, child: KeywordTrie)
    requires Valid(t, path) && next !in t.runes
    requires Valid(child, path + [next])
    ensures Valid(KeywordTrie(t.children + [child], t.runes + [next], t.leaf), path)
  {
  }

  /** Replacing child `idx` by a valid node that holds `orig` besides the old child's keys. */
  lemma ReplaceChild(t: KeywordTrie, path: string, idx: nat, c': KeywordTrie, orig: string)
    requires Valid(t, path) && idx < |t.children|
    requires Valid(c', path + [t.runes[idx]])
    requires |orig| > |path| && orig[|path|] == t.runes[idx]
    requires Keys(c') == Keys(t.children[idx]) + {orig}
    requires orig in Keys(t.children[idx]) ==> c' == t.children[idx]
    ensures Valid(t.(children := t.children[idx := c']), path)
    ensures Keys(t.(children := t.children[idx := c'])) == Keys(t) + {orig}
    ensures orig in Keys(t) ==> t.(children := t.children[idx := c']) == t
  {
    var u := t.(children := t.children[idx := c']);
    ValidReplaceChild(t, path, idx, c');
    ChildKeysReplace(t, u, idx, |t.children|);
    ChildKeysContains(t, |t.children|, idx);
    if orig in Keys(t) {
      KeysBelow(t, path);
      assert IndexOf(t.runes, orig[|path|]) == idx;
      assert t.children[idx := c'] == t.children;
    }
  }

  /** Appending an edge with a fresh rune adds exactly the new child's keys. */
  lemma AppendChild(t: KeywordTrie, path: string, next: char, child: KeywordTrie, orig: string)
    requires Valid(t, path) && next !in t.runes
    requires Valid(child, path + [next])
    requires Keys(child) == {orig} && |orig| > |path| && orig[|path|] == next
    ensures Valid(KeywordTrie(t.children + [child], t.runes + [next], t.leaf), path)
    ensures Keys(KeywordTrie(t.children + [child], t.runes + [next], t.leaf)) == Keys(t) + {orig}
    ensures orig !in Keys(t)
  {
    ValidAppendChild(t, path, next, child);
    KeysAppendChild(t, next, child);
    FreshRuneNotKey(t, path, orig);
  }

  lemma KeysAppendChild(t: KeywordTrie, next: char, child: KeywordTrie)
    ensures Keys(KeywordTrie(t.children + [child], t.runes + [next], t.leaf)) == Keys(t) + Keys(child)
  {
    var u := KeywordTrie(t.children + [child], t.runes + [next], t.leaf);
    var n := |t.children|;
    assert u.children[..n] == t.children[..n];
    ChildKeysSameChildren(t, u, n);
    assert u.children[n] == child;
  }

  /** No key of a node continues its path with a rune that has no edge. */
  lemma FreshRuneNotKey(t: KeywordTrie, path: string, orig: string)
    requires Valid(t, path)
    requires |orig| > |path| && orig[|path|] !in t.runes
    ensures orig !in Keys(t)
  {
    KeysBelow(t, path);
  }

  lemma {:induction false} ChildKeysSameChildren(t: KeywordTrie, u: KeywordTrie, n: nat)
    requires n <= |t.children| && n <= |u.children|
    requires t.children[..n] == u.children[..n]
    ensures ChildKeys(t, n) == ChildKeys(u, n)
    decreases n
  {
    if n > 0 {
      assert t.children[..n - 1] == u.children[..n - 1] by {
        assert t.children[..n - 1] == t.children[..n][..n - 1];
        assert u.children[..n - 1] == u.children[..n][..n - 1];
      }
      assert t.children[n - 1] == t.children[..n][n - 1];
      ChildKeysSameChildren(t, u, n - 1);
    }
  }

  /** Replacing one child by a node with at least its keys adds the new child's keys. */
  lemma {:induction false} ChildKeysReplace(t: KeywordTrie, u: KeywordTrie, idx: nat, n: nat)
    requires idx < |t.children| && n <= |t.children| == |u.children|
    requires forall j :: 0 <= j < |t.children| && j != idx ==> u.children[j] == t.children[j]
    requires Keys(t.children[idx]) <= Keys(u.children[idx])
    ensures ChildKeys(u, n) == ChildKeys(t, n) + (if idx < n then Keys(u.children[idx]) else {})
    decreases n
  {
    if n > 0 {
      ChildKeysReplace(t, u, idx, n - 1);
    }
  }

  /**
   * `Add`: registers `keyword` in the trie. The empty keyword changes nothing,
   * and adding a keyword already present creates no node at all.
   */
  method Add(t: KeywordTrie, keyword: string) returns (t': KeywordTrie)
    requires Valid(t, "")
    ensures Valid(t', "")
    ensures Keys(t') == if keyword == "" then Keys(t) else Keys(t) + {keyword}
    ensures keyword in Keys(t) || keyword == "" ==> t' == t
  {
    t' := AddRunes(t, "", keyword, keyword);
  }
}
