/** Parts and interleavings of streams of events. */
module Streams {
  import opened EventHistory

  predicate Subsequence(a: seq<Event>, b: seq<Event>) {
    if a == [] then true
    else if b == [] then false
    else Subsequence(a, b[..|b| - 1])
         || (a[|a| - 1] == b[|b| - 1] && Subsequence(a[..|a| - 1], b[..|b| - 1]))
  }

  lemma SubsequenceSkip(a: seq<Event>, b: seq<Event>, e: Event)
    requires Subsequence(a, b)
    ensures Subsequence(a, b + [e])
  {
    assert (b + [e])[..|b|] == b;
  }

  lemma SubsequenceTake(a: seq<Event>, b: seq<Event>, e: Event)
    requires Subsequence(a, b)
    ensures Subsequence(a + [e], b + [e])
  {
    assert (b + [e])[..|b|] == b && (a + [e])[..|a|] == a;
  }

  lemma {:induction false} SubsequenceTransitive(a: seq<Event>, b: seq<Event>, c: seq<Event>)
    requires Subsequence(a, b) && Subsequence(b, c)
    ensures Subsequence(a, c)
    decreases |c|
  {
    if a != [] {
      var a', b', c' := a[..|a| - 1], b[..|b| - 1], c[..|c| - 1];
      if Subsequence(b, c') {
        SubsequenceTransitive(a, b, c');
      } else if Subsequence(a, b') {
        SubsequenceTransitive(a, b', c');
      } else {
        SubsequenceTransitive(a', b', c');
      }
    }
  }

  lemma {:induction false} MatchingIsSubsequence(s: seq<Event>, want: Interest)
    ensures Subsequence(Matching(s, want), s)
  {
    if s != [] {
      var s' := s[..|s| - 1];
      MatchingIsSubsequence(s', want);
      assert s == s' + [s[|s| - 1]];
      if want.Wants(s[|s| - 1]) {
        SubsequenceTake(Matching(s', want), s', s[|s| - 1]);
      } else {
        assert Matching(s, want) == Matching(s', want);
        SubsequenceSkip(Matching(s', want), s', s[|s| - 1]);
      }
    }
  }

  lemma {:induction false} SuffixIsSubsequence(s: seq<Event>, i: nat, more: seq<Event>)
    requires i <= |s|
    ensures Subsequence(s[i..], s + more)
    decreases |s| + |more|
  {
    if more != [] {
      SuffixIsSubsequence(s, i, more[..|more| - 1]);
      assert s + more == (s + more[..|more| - 1]) + [more[|more| - 1]];
      SubsequenceSkip(s[i..], s + more[..|more| - 1], more[|more| - 1]);
    } else if i < |s| {
      var s' := s[..|s| - 1];
      SuffixIsSubsequence(s', i, []);
      assert s' + [] == s' && s + [] == s' + [s[|s| - 1]] && s[i..] == s'[i..] + [s[|s| - 1]];
      SubsequenceTake(s'[i..], s', s[|s| - 1]);
    }
  }

  lemma {:induction false} MatchingGrows(s: seq<Event>, more: seq<Event>, want: Interest)
    ensures Subsequence(Matching(s, want), Matching(s + more, want))
    decreases |more|
  {
    if more == [] {
      assert s + more == s;
      var m := Matching(s, want);
      SuffixIsSubsequence(m, 0, []);
      assert m[0..] == m && m + [] == m;
    } else {
      var more', e := more[..|more| - 1], more[|more| - 1];
      MatchingGrows(s, more', want);
      assert s + more == (s + more') + [e];
      MatchingAppend(s + more', e, want);
      if want.Wants(e) {
        SubsequenceSkip(Matching(s, want), Matching(s + more', want), e);
      } else {
        assert Matching(s + more', want) + [] == Matching(s + more', want);
      }
    }
  }

  /** s is an interleaving of a and b. */
  predicate Merged(s: seq<Event>, a: seq<Event>, b: seq<Event>)
    decreases |s|
  {
    if s == [] then a == [] && b == []
    else
      var front, last := s[..|s| - 1], s[|s| - 1];
      (a != [] && a[|a| - 1] == last && Merged(front, a[..|a| - 1], b))
      || (b != [] && b[|b| - 1] == last && Merged(front, a, b[..|b| - 1]))
  }

  lemma MergedGrows(s: seq<Event>, a: seq<Event>, b: seq<Event>, e: Event)
    requires Merged(s, a, b)
    ensures Merged(s + [e], a + [e], b) && Merged(s + [e], a, b + [e])
  {
    assert (s + [e])[..|s|] == s && (a + [e])[..|a|] == a && (b + [e])[..|b|] == b;
  }

  /** An interleaving has the elements of both, and both in their order. */
  lemma {:induction false} MergedParts(s: seq<Event>, a: seq<Event>, b: seq<Event>)
    requires Merged(s, a, b)
    ensures |s| == |a| + |b|
    ensures Subsequence(a, s) && Subsequence(b, s)
    ensures b == [] ==> s == a
    decreases |s|
  {
    if s != [] {
      var front, last := s[..|s| - 1], s[|s| - 1];
      assert s == front + [last];
      if a != [] && a[|a| - 1] == last && Merged(front, a[..|a| - 1], b) {
        MergedParts(front, a[..|a| - 1], b);
        assert a == a[..|a| - 1] + [last];
        SubsequenceTake(a[..|a| - 1], front, last);
        SubsequenceSkip(b, front, last);
      } else {
        MergedParts(front, a, b[..|b| - 1]);
        assert b == b[..|b| - 1] + [last];
        SubsequenceTake(b[..|b| - 1], front, last);
        SubsequenceSkip(a, front, last);
      }
    }
  }
}
