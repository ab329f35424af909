/** `re.findall(r'(\w+)\.(\w+)', expr)`: the `message.field` terms of a graph
    expression, leftmost first and without overlap. `\w` here is ASCII
    letters, digits and underscore; Python's Unicode `\w` is wider. */
module Terms {

  import opened Log

  /** One `(message, field)` match. */
  datatype Term = Term(msg: string, field: string)

  predicate IsWordChar(c: char) {
    ('a' <= c <= 'z') || ('A' <= c <= 'Z') || ('0' <= c <= '9') || c == '_'
  }

  predicate IsWord(s: string) {
    s != [] && forall i :: 0 <= i < |s| ==> IsWordChar(s[i])
  }

  /** `msg + '.' + field`: the key a term is stored and re-evaluated under. */
  function Key(t: Term): string {
    t.msg + "." + t.field
  }

  /** End of the longest run of word characters starting at `p`. */
  function WordEnd(s: string, p: nat): (q: nat)
    requires p <= |s|
    ensures p <= q <= |s|
    ensures forall i :: p <= i < q ==> IsWordChar(s[i])
    ensures q == |s| || !IsWordChar(s[q])
    decreases |s| - p
  {
    if p < |s| && IsWordChar(s[p]) then WordEnd(s, p + 1) else p
  }

  /** The match of `(\w+)\.(\w+)` that starts exactly at `p`, with its end.
      Backtracking cannot help: a shorter first group is followed by a word
      character, never by the dot, and nothing follows the second group. */
  function MatchAt(s: string, p: nat): (r: Option<(Term, nat)>)
    requires p <= |s|
    ensures r.Some? ==> p < r.value.1 <= |s|
    ensures r.Some? ==> IsWord(r.value.0.msg) && IsWord(r.value.0.field)
    ensures r.Some? ==> s[p..r.value.1] == Key(r.value.0)
    ensures r.Some? ==> r.value.1 == |s| || !IsWordChar(s[r.value.1])
  {
    if p < |s| && IsWordChar(s[p]) then
      var q := WordEnd(s, p);
      if q + 1 < |s| && s[q] == '.' && IsWordChar(s[q + 1]) then
        var e := WordEnd(s, q + 1);
        SplitAtDot(s, p, q, e);
        Some((Term(s[p..q], s[q + 1..e]), e))
      else None
    else None
  }

  /** Word characters from `p` up to `q`, a dot at `q`, a word character after it. */
  predicate DottedRun(s: string, p: nat, q: nat) {
    p < q && q + 1 < |s| && s[q] == '.' && IsWordChar(s[q + 1])
    && forall i :: p <= i < q ==> IsWordChar(s[i])
  }

  /** Where the matches that the scan from `p` finds start. */
  function Starts(s: string, p: nat): seq<nat>
    requires p <= |s|
    decreases |s| - p
  {
    if p == |s| then []
    else
      var m := MatchAt(s, p);
      if m.Some? then [p] + Starts(s, m.value.1) else Starts(s, p + 1)
  }

  /** The terms found from `p` are matches in `s` at increasing positions
      from `p` on, none overlapping the one before: each starts at or after
      the end of the previous match. */
  lemma StartsMeaning(s: string, p: nat)
    requires p <= |s|
    ensures |Starts(s, p)| == |FindFrom(s, p)|
    ensures forall k :: 0 <= k < |Starts(s, p)| ==>
              p <= Starts(s, p)[k] < |s| && MatchAt(s, Starts(s, p)[k]).Some?
              && MatchAt(s, Starts(s, p)[k]).value.0 == FindFrom(s, p)[k]
    ensures forall k :: 0 <= k < |Starts(s, p)| - 1 ==> MatchAt(s, Starts(s, p)[k]).value.1 <= Starts(s, p)[k + 1]
  {
    StartsCount(s, p);
    forall k | 0 <= k < |Starts(s, p)|
      ensures p <= Starts(s, p)[k] < |s| && MatchAt(s, Starts(s, p)[k]).Some?
              && MatchAt(s, Starts(s, p)[k]).value.0 == FindFrom(s, p)[k]
    {
      StartsAt(s, p, k);
    }
    forall k | 0 <= k < |Starts(s, p)| - 1
      ensures MatchAt(s, Starts(s, p)[k]).value.1 <= Starts(s, p)[k + 1]
    {
      StartsAt(s, p, k);
      StartsApart(s, p, k);
    }
  }

  lemma {:induction false} StartsCount(s: string, p: nat)
    requires p <= |s|
    ensures |Starts(s, p)| == |FindFrom(s, p)|
    decreases |s| - p
  {
    if p < |s| {
      var m := MatchAt(s, p);
      if m.Some? {
        StartsCount(s, m.value.1);
      } else {
        StartsCount(s, p + 1);
      }
    }
  }

  /** The `k`-th start is a match position whose term is the `k`-th term. */
  lemma {:induction false} StartsAt(s: string, p: nat, k: nat)
    requires p <= |s| && k < |Starts(s, p)|
    ensures k < |FindFrom(s, p)|
    ensures p <= Starts(s, p)[k] < |s| && MatchAt(s, Starts(s, p)[k]).Some?
    ensures MatchAt(s, Starts(s, p)[k]).value.0 == FindFrom(s, p)[k]
    decreases |s| - p
  {
    StartsCount(s, p);
    var m := MatchAt(s, p);
    if m.Some? {
      if k > 0 {
        StartsAt(s, m.value.1, k - 1);
      }
    } else {
      StartsAt(s, p + 1, k);
    }
  }

  /** Every start from `q` on is at least `q`. */
  lemma {:induction false} StartsFrom(s: string, q: nat, k: nat)
    requires q <= |s| && k < |Starts(s, q)|
    ensures q <= Starts(s, q)[k]
    decreases |s| - q
  {
    var m := MatchAt(s, q);
    if m.Some? {
      if k > 0 {
        StartsFrom(s, m.value.1, k - 1);
      }
    } else {
      StartsFrom(s, q + 1, k);
    }
  }

  /** The next match starts at or after the end of the `k`-th one. */
  lemma {:induction false} StartsApart(s: string, p: nat, k: nat)
    requires p <= |s| && k + 1 < |Starts(s, p)|
    ensures Starts(s, p)[k] < |s| && MatchAt(s, Starts(s, p)[k]).Some?
    ensures MatchAt(s, Starts(s, p)[k]).value.1 <= Starts(s, p)[k + 1]
    decreases |s| - p
  {
    StartsAt(s, p, k);
    var m := MatchAt(s, p);
    if m.Some? {
      if k > 0 {
        StartsApart(s, m.value.1, k - 1);
      } else {
        StartsFrom(s, m.value.1, 0);
      }
    } else {
      StartsApart(s, p + 1, k);
    }
  }

  /** A match starts at `p` exactly when a run of word characters from `p`
      is followed by a dot and a word character. */
  lemma MatchAtIff(s: string, p: nat)
    requires p <= |s|
    ensures MatchAt(s, p).Some? <==> exists q: nat :: DottedRun(s, p, q)
  {
    if exists q: nat :: DottedRun(s, p, q) {
      var q: nat :| DottedRun(s, p, q);
      var w := s[p..q];
      assert forall i :: 0 <= i < |w| ==> w[i] == s[p + i];
      WordEndOfWord(s, p, w);
      assert IsWordChar(s[p]);
    }
    if MatchAt(s, p).Some? {
      assert DottedRun(s, p, WordEnd(s, p));
    }
  }

  lemma SplitAtDot(s: string, p: nat, q: nat, e: nat)
    requires p <= q < e <= |s| && s[q] == '.'
    ensures s[p..e] == s[p..q] + "." + s[q + 1..e]
  {
    assert s[p..e] == s[p..q] + s[q..e];
    assert s[q..e] == [s[q]] + s[q + 1..e];
  }

  /** The scan of `re.findall` from position `p`: try a match at `p`; after a
      match resume at its end, otherwise at the next position. */
  function FindFrom(s: string, p: nat): (r: seq<Term>)
    requires p <= |s|
    ensures forall k :: 0 <= k < |r| ==> IsWord(r[k].msg) && IsWord(r[k].field)
    decreases |s| - p
  {
    if p == |s| then []
    else
      var m := MatchAt(s, p);
      if m.Some? then [m.value.0] + FindFrom(s, m.value.1) else FindFrom(s, p + 1)
  }

  function FindAll(s: string): seq<Term> {
    FindFrom(s, 0)
  }

  /** `re.findall` takes the leftmost match and resumes at its end: when `q`
      is the first position at or after `p` where a match starts, the scan
      from `p` yields that match, then the scan from its end; when there is
      none, it yields nothing. `evaluate_expression` uses the first term,
      so it evaluates the leftmost match. */
  lemma {:induction false} FindFromLeftmost(s: string, p: nat, q: nat)
    requires p <= q <= |s|
    requires forall r :: p <= r < q ==> MatchAt(s, r).None?
    ensures q == |s| ==> FindFrom(s, p) == []
    ensures q < |s| && MatchAt(s, q).Some? ==>
              FindFrom(s, p) == [MatchAt(s, q).value.0] + FindFrom(s, MatchAt(s, q).value.1)
    decreases q - p
  {
    if p < q {
      FindFromLeftmost(s, p + 1, q);
    }
  }

  /** Somewhere in `s` a word character, a dot and a word character follow each other. */
  predicate HasDottedPair(s: string, from: nat) {
    exists i :: from <= i && i + 2 < |s| && IsWordChar(s[i]) && s[i + 1] == '.' && IsWordChar(s[i + 2])
  }

  /** A word character, a dot and a word character at or after `p` make the
      scan from `p` find at least one term. */
  lemma {:induction false} FindFromNonEmpty(s: string, p: nat, i: nat)
    requires p <= i && i + 2 < |s|
    requires IsWordChar(s[i]) && s[i + 1] == '.' && IsWordChar(s[i + 2])
    ensures FindFrom(s, p) != []
    decreases i - p
  {
    if p == i {
      assert WordEnd(s, i + 1) == i + 1;
      assert WordEnd(s, i) == i + 1;
      assert MatchAt(s, p).Some?;
    } else {
      match MatchAt(s, p)
      case Some(_) =>
      case None => FindFromNonEmpty(s, p + 1, i);
    }
  }

  lemma {:induction false} FindFromWitness(s: string, p: nat)
    requires p <= |s|
    requires FindFrom(s, p) != []
    ensures HasDottedPair(s, p)
    decreases |s| - p
  {
    if p < |s| {
      match MatchAt(s, p)
      case Some((t, e)) =>
        var q := WordEnd(s, p);
        assert q > p && IsWordChar(s[q - 1]) && s[q] == '.' && IsWordChar(s[q + 1]);
        assert p <= q - 1 && q - 1 + 2 < |s|;
      case None =>
        FindFromWitness(s, p + 1);
    }
  }

  /** An expression yields no term exactly when it contains no `w.w` triple,
      the case in which `evaluate_expression` returns an empty series. */
  lemma FindAllEmptyIff(s: string)
    ensures FindAll(s) == [] <==> !HasDottedPair(s, 0)
  {
    if HasDottedPair(s, 0) {
      var i :| 0 <= i && i + 2 < |s| && IsWordChar(s[i]) && s[i + 1] == '.' && IsWordChar(s[i + 2]);
      FindFromNonEmpty(s, 0, i);
    }
    if FindAll(s) != [] {
      FindFromWitness(s, 0);
    }
  }

  lemma {:induction false} WordEndOfWord(s: string, p: nat, w: string)
    requires p + |w| <= |s| && s[p..p + |w|] == w
    requires forall i :: 0 <= i < |w| ==> IsWordChar(w[i])
    requires p + |w| == |s| || !IsWordChar(s[p + |w|])
    ensures WordEnd(s, p) == p + |w|
    decreases |w|
  {
    if w != [] {
      assert s[p] == w[0];
      assert s[p + 1..p + 1 + |w[1..]|] == w[1..];
      WordEndOfWord(s, p + 1, w[1..]);
    }
  }

  /** Re-extracting the key of a term gives back that term and nothing else:
      `evaluate_graph_on_file` hands `msg.field` to `evaluate_expression`, whose
      first match is that same pair. */
  lemma KeyRoundTrip(t: Term)
    requires IsWord(t.msg) && IsWord(t.field)
    ensures FindAll(Key(t)) == [t]
  {
    var s := Key(t);
    var q := |t.msg|;
    assert s[0..q] == t.msg;
    WordEndOfWord(s, 0, t.msg);
    assert s[q] == '.';
    assert s[q + 1..] == t.field;
    WordEndOfWord(s, q + 1, t.field);
    assert MatchAt(s, 0) == Some((t, |s|));
    assert FindFrom(s, |s|) == [];
  }
}
