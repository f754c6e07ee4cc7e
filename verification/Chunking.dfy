/** Cutting sequences into chunks and texts into words, and putting them together again. */
module Chunking {
  import opened Sequences

  /** Pieces of length `n`, the last one possibly shorter. */
  function Chunks<T>(s: seq<T>, n: nat): seq<seq<T>>
    requires n > 0
  {
    if s == [] then [] else if |s| <= n then [s] else [s[..n]] + Chunks(s[n..], n)
  }

  predicate AllOfLength<T>(ss: seq<seq<T>>, n: nat) {
    forall i | 0 <= i < |ss| :: |ss[i]| == n
  }

  lemma ConcatCons<T>(x: seq<T>, ss: seq<seq<T>>)
    ensures Concat([x] + ss) == x + Concat(ss)
  {
    assert ([x] + ss)[1..] == ss;
  }

  lemma {:induction false} ConcatChunks<T>(s: seq<T>, n: nat)
    requires n > 0
    ensures Concat(Chunks(s, n)) == s
  {
    if s == [] {
    } else if |s| <= n {
      ConcatCons(s, []);
    } else {
      ConcatChunks(s[n..], n);
      ConcatCons(s[..n], Chunks(s[n..], n));
    }
  }

  lemma {:induction false} ConcatLength<T>(ss: seq<seq<T>>, n: nat)
    requires AllOfLength(ss, n)
    ensures |Concat(ss)| == |ss| * n
  {
    if ss != [] {
      ConcatLength(ss[1..], n);
      assert |ss| * n == n + (|ss| - 1) * n;
    }
  }

  lemma {:induction false} ChunksConcat<T>(ss: seq<seq<T>>, n: nat)
    requires n > 0 && AllOfLength(ss, n)
    ensures Chunks(Concat(ss), n) == ss
  {
    if |ss| == 1 {
      assert ss[1..] == [] && Concat(ss) == ss[0];
      assert ss == [ss[0]];
    } else if |ss| > 1 {
      var rest := Concat(ss[1..]);
      ChunksConcat(ss[1..], n);
      assert rest != [] by { assert ss[1] != []; assert ss[1..][0] == ss[1]; }
      assert Concat(ss) == ss[0] + rest;
      assert (ss[0] + rest)[..n] == ss[0] && (ss[0] + rest)[n..] == rest;
    }
  }

  lemma {:induction false} ExactChunks<T>(s: seq<T>, n: nat, k: nat)
    requires n > 0 && |s| == k * n
    ensures |Chunks(s, n)| == k && AllOfLength(Chunks(s, n), n)
    decreases k
  {
    if k == 1 {
    } else if k > 1 {
      assert |s[n..]| == (k - 1) * n;
      ExactChunks(s[n..], n, k - 1);
    }
  }

  // ----- words separated by single spaces -----

  predicate Spaceless(w: string) {
    forall i | 0 <= i < |w| :: w[i] != ' '
  }

  predicate AllSpaceless(ws: seq<string>) {
    forall i | 0 <= i < |ws| :: Spaceless(ws[i])
  }

  function Join(ws: seq<string>): string {
    if ws == [] then "" else if |ws| == 1 then ws[0] else ws[0] + (" " + Join(ws[1..]))
  }

  /** Position of the first space, or the length. */
  function FirstSpace(s: string): (i: nat)
    ensures i <= |s| && Spaceless(s[..i]) && (i < |s| ==> s[i] == ' ')
  {
    if s == "" || s[0] == ' ' then 0 else
      var i := 1 + FirstSpace(s[1..]);
      assert forall k | 1 <= k < i :: s[..i][k] == s[1..][..i - 1][k - 1];
      i
  }

  function Split(s: string): (ws: seq<string>)
    ensures ws != [] && AllSpaceless(ws)
    decreases |s|
  {
    var i := FirstSpace(s);
    if i == |s| then assert s[..i] == s; [s] else [s[..i]] + Split(s[i + 1..])
  }

  lemma {:induction false} FirstSpaceExact(w: string, rest: string)
    requires Spaceless(w)
    ensures FirstSpace(w + " " + rest) == |w|
  {
    if w != "" {
      assert (w + " " + rest)[1..] == w[1..] + " " + rest;
      FirstSpaceExact(w[1..], rest);
    }
  }

  lemma {:induction false} NoSpace(w: string)
    requires Spaceless(w)
    ensures FirstSpace(w) == |w|
  {
    if w != "" { NoSpace(w[1..]); }
  }

  lemma {:induction false} SplitJoin(ws: seq<string>)
    requires ws != [] && AllSpaceless(ws)
    ensures Split(Join(ws)) == ws
  {
    if |ws| == 1 {
      NoSpace(ws[0]);
    } else {
      var rest := Join(ws[1..]);
      var s := ws[0] + " " + rest;
      assert Join(ws) == s;
      FirstSpaceExact(ws[0], rest);
      SplitJoin(ws[1..]);
      assert s[..|ws[0]|] == ws[0] && s[|ws[0]| + 1..] == rest;
    }
  }

  lemma JoinCons(w: string, ws: seq<string>)
    requires ws != []
    ensures Join([w] + ws) == w + (" " + Join(ws))
  {
    assert ([w] + ws)[1..] == ws;
  }

  lemma SplitUnfold(s: string)
    ensures var i := FirstSpace(s); Split(s) == if i == |s| then [s] else [s[..i]] + Split(s[i + 1..])
  {
    hide FirstSpace, AllSpaceless, Spaceless;
  }

  lemma {:induction false} JoinSplit(s: string)
    ensures Join(Split(s)) == s
    decreases |s|
  {
    hide Split, FirstSpace, AllSpaceless, Spaceless;
    SplitUnfold(s);
    var i := FirstSpace(s);
    if i < |s| {
      JoinSplit(s[i + 1..]);
      JoinCons(s[..i], Split(s[i + 1..]));
      assert s == s[..i] + (" " + s[i + 1..]);
    }
  }

  lemma {:induction false} JoinAppend(a: seq<string>, b: seq<string>)
    requires a != [] && b != []
    ensures Join(a + b) == Join(a) + (" " + Join(b))
  {
    assert (a + b)[1..] == a[1..] + b;
    if |a| == 1 {
      assert a[1..] + b == b;
    } else {
      JoinAppend(a[1..], b);
      assert a[0] + (" " + (Join(a[1..]) + (" " + Join(b)))) == a[0] + (" " + Join(a[1..])) + (" " + Join(b));
    }
  }
}
