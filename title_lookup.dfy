// Subject resolution for a title group (readForTitle in bin/dm-json-to-json.py).
//
// The script looks a subject up under several candidate keys: the whole
// title, and the one or two pieces Python's `str.split(maxsplit=1)` makes of
// it. The candidates form a Python `set`, whose iteration order the program
// does not control, so the order in which they are tried is an input here.

module SubjectLookup {

  /** A sequence record as the `dark` library hands it out: an id and its residues. */
  datatype Read = Read(id: string, sequence: string)

  /** Outcome of a lookup: the subject found, or the KeyError raised with the title. */
  datatype Lookup = Found(read: Read) | KeyError(key: string)

  /** The characters Python's argument-less `str.split` treats as whitespace. */
  predicate IsSpace(c: char)
  {
    var n := c as int;
    (9 <= n <= 13) || (28 <= n <= 32) || n == 0x85 || n == 0xA0 || n == 0x1680 ||
    (0x2000 <= n <= 0x200A) || n == 0x2028 || n == 0x2029 || n == 0x202F ||
    n == 0x205F || n == 0x3000
  }

  predicate AllSpace(s: string)
  {
    forall i :: 0 <= i < |s| ==> IsSpace(s[i])
  }

  predicate NoSpace(s: string)
  {
    forall i :: 0 <= i < |s| ==> !IsSpace(s[i])
  }

  /** Length of the leading run of whitespace of `s`. */
  function SkipSpace(s: string): (k: nat)
    ensures k <= |s|
    ensures AllSpace(s[..k])
    ensures k < |s| ==> !IsSpace(s[k])
  {
    if s == [] || !IsSpace(s[0]) then 0 else 1 + SkipSpace(s[1..])
  }

  /** Index of the first whitespace character of `s`, or `|s|` if there is none. */
  function FindSpace(s: string): (k: nat)
    ensures k <= |s|
    ensures NoSpace(s[..k])
    ensures k < |s| ==> IsSpace(s[k])
  {
    if s == [] || IsSpace(s[0]) then 0 else 1 + FindSpace(s[1..])
  }

  /**
   * Python's `s.split(maxsplit=1)`: leading whitespace is dropped, the first
   * piece runs up to the next whitespace, and the second piece is whatever
   * follows the whitespace run after it (trailing whitespace kept).
   */
  function SplitOnce(s: string): (r: seq<string>)
    ensures |r| <= 2
    ensures forall i :: 0 <= i < |r| ==> r[i] != []
  {
    var t := s[SkipSpace(s)..];
    if t == [] then []
    else
      var k := FindSpace(t);
      var rest := t[k..];
      var tail := rest[SkipSpace(rest)..];
      if tail == [] then [t[..k]] else [t[..k], tail]
  }

  lemma {:induction false} SkipSpaceOf(w: string, u: string)
    requires AllSpace(w)
    requires u == [] || !IsSpace(u[0])
    ensures SkipSpace(w + u) == |w|
  {
    if w != [] {
      assert (w + u)[0] == w[0];
      assert (w + u)[1..] == w[1..] + u;
      SkipSpaceOf(w[1..], u);
    }
  }

  lemma {:induction false} FindSpaceOf(a: string, u: string)
    requires NoSpace(a)
    requires u == [] || IsSpace(u[0])
    ensures FindSpace(a + u) == |a|
  {
    if a != [] {
      assert (a + u)[0] == a[0];
      assert (a + u)[1..] == a[1..] + u;
      FindSpaceOf(a[1..], u);
    }
  }

  /**
   * The three cut points of `SplitOnce(s)`: leading whitespace `s[..j]`, the
   * first token `s[j..k]`, the whitespace run `s[k..m]` after it, and the
   * remainder `s[m..]`.
   */
  lemma SplitOnceCuts(s: string) returns (j: nat, k: nat, m: nat)
    ensures j <= k <= m <= |s|
    ensures AllSpace(s[..j]) && NoSpace(s[j..k]) && AllSpace(s[k..m])
    ensures j < |s| ==> j < k
    ensures k < |s| ==> k < m
    ensures m < |s| ==> !IsSpace(s[m])
    ensures SplitOnce(s) == if j == |s| then [] else if m == |s| then [s[j..k]] else [s[j..k], s[m..]]
  {
    j := SkipSpace(s);
    var t := s[j..];
    if t == [] {
      k, m := j, j;
      return;
    }
    var d := FindSpace(t);
    assert d > 0 by { assert t[0] == s[j]; }
    k := j + d;
    assert t[..d] == s[j..k];
    var rest := t[d..];
    assert rest == s[k..];
    var e := SkipSpace(rest);
    m := k + e;
    assert rest[..e] == s[k..m];
    assert rest[e..] == s[m..];
    if k < |s| {
      assert rest[0] == t[d] == s[k];
    }
  }

  /** Cutting `s` at `j`, `k` and `m` and gluing the four slices back gives `s`. */
  lemma Slices(s: string, j: nat, k: nat, m: nat)
    requires j <= k <= m <= |s|
    ensures s == s[..j] + s[j..k] + s[k..m] + s[m..]
    ensures m == |s| ==> s == s[..j] + s[j..k] + s[k..m]
  {
    assert s[..k] == s[..j] + s[j..k];
    assert s[..m] == s[..k] + s[k..m];
    assert s == s[..m] + s[m..];
  }

  /** No pieces: the title is all whitespace. */
  lemma SplitOnceNoPiece(s: string)
    requires SplitOnce(s) == []
    ensures AllSpace(s)
  {
    var j, k, m := SplitOnceCuts(s);
    assert s[..j] == s;
  }

  /** One piece: a token without whitespace, with whitespace on either side. */
  lemma SplitOnceOnePiece(s: string)
    requires |SplitOnce(s)| == 1
    ensures NoSpace(SplitOnce(s)[0])
    ensures exists w1, w2 :: AllSpace(w1) && AllSpace(w2) && s == w1 + SplitOnce(s)[0] + w2
  {
    var j, k, m := SplitOnceCuts(s);
    Slices(s, j, k, m);
    var w1, w2 := s[..j], s[k..m];
    assert AllSpace(w1) && AllSpace(w2) && s == w1 + SplitOnce(s)[0] + w2;
  }

  /** Two pieces: a token, a nonempty whitespace run, and a remainder starting with a non-space. */
  lemma SplitOnceTwoPieces(s: string)
    requires |SplitOnce(s)| == 2
    ensures NoSpace(SplitOnce(s)[0]) && !IsSpace(SplitOnce(s)[1][0])
    ensures exists w1, w2 :: AllSpace(w1) && AllSpace(w2) && w2 != [] && s == w1 + SplitOnce(s)[0] + w2 + SplitOnce(s)[1]
  {
    var j, k, m := SplitOnceCuts(s);
    Slices(s, j, k, m);
    var w1, w2 := s[..j], s[k..m];
    assert AllSpace(w1) && AllSpace(w2) && w2 != [] && s == w1 + SplitOnce(s)[0] + w2 + SplitOnce(s)[1];
  }

  /** What `SplitOnce` returns, read back: the pieces and the whitespace around them rebuild `s`. */
  lemma SplitOnceRebuilds(s: string)
    ensures var r := SplitOnce(s);
      (|r| == 0 ==> AllSpace(s)) &&
      (|r| >= 1 ==> NoSpace(r[0])) &&
      (|r| == 1 ==> exists w1, w2 :: AllSpace(w1) && AllSpace(w2) && s == w1 + r[0] + w2) &&
      (|r| == 2 ==>
        !IsSpace(r[1][0]) &&
        (exists w1, w2 :: AllSpace(w1) && AllSpace(w2) && w2 != [] && s == w1 + r[0] + w2 + r[1]))
  {
    var r := SplitOnce(s);
    if |r| == 0 {
      SplitOnceNoPiece(s);
    } else if |r| == 1 {
      SplitOnceOnePiece(s);
    } else {
      SplitOnceTwoPieces(s);
    }
  }

  /** Conversely, a title made of a token, whitespace and a remainder splits into exactly those two pieces. */
  lemma SplitOnceOfTwoPieces(w1: string, a: string, w2: string, b: string)
    requires AllSpace(w1) && AllSpace(w2) && w2 != []
    requires a != [] && NoSpace(a)
    requires b != [] && !IsSpace(b[0])
    ensures SplitOnce(w1 + a + w2 + b) == [a, b]
  {
    var s := w1 + a + w2 + b;
    SkipSpaceOf(w1, a + w2 + b);
    assert s == w1 + (a + w2 + b);
    assert s[|w1|..] == a + w2 + b;
    FindSpaceOf(a, w2 + b);
    assert a + w2 + b == a + (w2 + b);
    assert (a + w2 + b)[|a|..] == w2 + b;
    assert (a + w2 + b)[..|a|] == a;
    SkipSpaceOf(w2, b);
    assert (w2 + b)[|w2|..] == b;
  }

  /** And a title that is one token padded with whitespace splits into that token alone. */
  lemma SplitOnceOfOnePiece(w1: string, a: string, w2: string)
    requires AllSpace(w1) && AllSpace(w2)
    requires a != [] && NoSpace(a)
    ensures SplitOnce(w1 + a + w2) == [a]
  {
    var s := w1 + a + w2;
    SkipSpaceOf(w1, a + w2);
    assert s == w1 + (a + w2);
    assert s[|w1|..] == a + w2;
    FindSpaceOf(a, w2);
    assert (a + w2)[|a|..] == w2;
    assert (a + w2)[..|a|] == a;
    SkipSpaceOf(w2, []);
    assert w2 + [] == w2;
  }

  /** The keys readForTitle tries: `set([title] + title.split(maxsplit=1))`. */
  function Candidates(title: string): set<string>
  {
    {title} + (set p | p in SplitOnce(title))
  }

  /** `order` lists the members of `cs` once each, in some order. */
  predicate Enumerates(order: seq<string>, cs: set<string>)
  {
    (forall c :: c in cs ==> c in order) &&
    (forall c :: c in order ==> c in cs) &&
    (forall i, j :: 0 <= i < j < |order| ==> order[i] != order[j])
  }

  /**
   * readForTitle: tries the keys of `order` (the candidate set in its
   * iteration order) one after the other against the subject index; the
   * first key present wins, and KeyError(title) is raised when none is.
   */
  function ReadForTitle(title: string, order: seq<string>, index: map<string, Read>): (r: Lookup)
    ensures r.KeyError? <==> forall i :: 0 <= i < |order| ==> order[i] !in index
    ensures r.KeyError? ==> r.key == title
    ensures r.Found? ==>
      exists i :: 0 <= i < |order| && order[i] in index && r.read == index[order[i]] &&
        forall j :: 0 <= j < i ==> order[j] !in index
  {
    if order == [] then KeyError(title)
    else if order[0] in index then Found(index[order[0]])
    else ReadForTitle(title, order[1..], index)
  }

  /**
   * Whatever order the candidates are tried in, readForTitle raises
   * KeyError(title) exactly when no candidate key is in the index, and
   * otherwise returns the subject stored under one of them.
   */
  lemma ReadForTitleResolves(title: string, order: seq<string>, index: map<string, Read>)
    requires Enumerates(order, Candidates(title))
    ensures var r := ReadForTitle(title, order, index);
      (r.KeyError? <==> forall c :: c in Candidates(title) ==> c !in index) &&
      (r.KeyError? ==> r.key == title) &&
      (r.Found? ==> exists c :: c in Candidates(title) && c in index && r.read == index[c]) &&
      (title in index ==> r.Found?)
  {
    var r := ReadForTitle(title, order, index);
    if r.Found? {
      var i :| 0 <= i < |order| && order[i] in index && r.read == index[order[i]] &&
        forall j :: 0 <= j < i ==> order[j] !in index;
      assert order[i] in Candidates(title);
    } else {
      forall c | c in Candidates(title) ensures c !in index {
        assert c in order;
      }
    }
  }

  /** When every resolvable candidate names the same subject, the set's iteration order does not matter. */
  lemma ReadForTitleOrderIrrelevant(title: string, o1: seq<string>, o2: seq<string>, index: map<string, Read>)
    requires Enumerates(o1, Candidates(title)) && Enumerates(o2, Candidates(title))
    requires forall c, d :: c in Candidates(title) && d in Candidates(title) && c in index && d in index ==>
      index[c] == index[d]
    ensures ReadForTitle(title, o1, index) == ReadForTitle(title, o2, index)
  {
    ReadForTitleResolves(title, o1, index);
    ReadForTitleResolves(title, o2, index);
  }

  /** A title without whitespace is its own and only candidate. */
  lemma {:induction false} PlainTitleIsOnlyCandidate(title: string)
    requires NoSpace(title)
    ensures Candidates(title) == {title}
  {
    if title != [] {
      SplitOnceOfOnePiece([], title, []);
      assert [] + title + [] == title;
    } else {
      assert SplitOnce(title) == [];
    }
  }

  /** A title with a space: the token before it and the remainder after it are both tried. */
  lemma TwoWordTitleCandidates(a: string, b: string)
    requires a != [] && NoSpace(a)
    requires b != [] && !IsSpace(b[0])
    ensures Candidates(a + " " + b) == {a + " " + b, a, b}
  {
    SplitOnceOfTwoPieces([], a, " ", b);
    assert [] + a + " " + b == a + " " + b;
  }
}
