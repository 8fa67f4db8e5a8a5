/**
 Acronym rewriting of packages/ws-client/src/wire-naming.ts: a loop of global regular
 expression replacements over a name, one per acronym, with a cache of results.

 The result is one simultaneous rewrite of the original name, so the order of the list
 does not matter as long as no acronym is another one followed by S and no two-letter
 acronym ends in S. The list of the source meets that condition.
 */
module WireNaming {

  predicate IsUpper(c: char) {
    'A' <= c <= 'Z'
  }

  predicate IsLower(c: char) {
    'a' <= c <= 'z'
  }

  function ToLower(c: char): char {
    if IsUpper(c) then c - 'A' + 'a' else c
  }

  function ToUpper(c: char): char {
    if IsLower(c) then c - 'a' + 'A' else c
  }

  predicate IsAcronym(a: string) {
    |a| >= 2 && forall i :: 0 <= i < |a| ==> IsUpper(a[i])
  }

  /** `acr.charAt(0) + acr.slice(1).toLowerCase()`. */
  function TitleCase(a: string): (t: string)
    requires a != ""
    ensures |t| == |a|
  {
    seq(|a|, i requires 0 <= i < |a| => if i == 0 then a[0] else ToLower(a[i]))
  }

  /** The alternatives `[A-Z]`, `$` and `[^a-zA-Z]` of the lookahead. */
  predicate WordEnds(s: string, e: nat) {
    e >= |s| || !IsLower(s[e])
  }

  predicate Lookahead(s: string, e: nat) {
    WordEnds(s, e) || (s[e] == 's' && WordEnds(s, e + 1))
  }

  /** The regular expression built for `a` matches at `p`. */
  predicate MatchesAt(s: string, a: string, p: nat)
    requires a != ""
  {
    p + |a| <= |s| && s[p..p + |a|] == TitleCase(a) && Lookahead(s, p + |a|)
  }

  /**
   What the regular expression accepts, letter by letter: the first letter of the acronym,
   the others in lower case, and behind them the end, a capital, no letter at all, or an s
   before one of these.
   */
  lemma WhatMatches(s: string, a: string, p: nat)
    requires a != "" && forall i :: 0 <= i < |a| ==> 'A' <= a[i] <= 'Z'
    ensures MatchesAt(s, a, p) <==>
            && p + |a| <= |s| && s[p] == a[0]
            && (forall k :: 0 < k < |a| ==> s[p + k] as int == a[k] as int + 32)
            && (EndsWord(s, p + |a|) || (s[p + |a|] == 's' && EndsWord(s, p + |a| + 1)))
  {
    var t := TitleCase(a);
    if p + |a| <= |s| {
      var part := s[p..p + |a|];
      assert part == t <==> forall k :: 0 <= k < |a| ==> part[k] == t[k];
      assert forall k :: 0 < k < |a| ==> t[k] as int == a[k] as int + 32;
    }
  }

  predicate EndsWord(s: string, e: nat) {
    e >= |s| || 'A' <= s[e] <= 'Z' || !('a' <= s[e] <= 'z' || 'A' <= s[e] <= 'Z')
  }

  /** `s.slice(i)` with the global replacement of `a`, scanning from `i`; the lookahead sees the whole of `s`. */
  function ReplaceFrom(s: string, a: string, i: nat): string
    requires a != "" && i <= |s|
    decreases |s| - i
  {
    if i == |s| then ""
    else if MatchesAt(s, a, i) then a + ReplaceFrom(s, a, i + |a|)
    else [s[i]] + ReplaceFrom(s, a, i + 1)
  }

  // ----- The simultaneous rewrite -----

  /** `k` lies behind the first letter of an occurrence of one of the acronyms. */
  ghost predicate Covered(s: string, acronyms: set<string>, k: int) {
    exists a, p: nat :: a in acronyms && a != "" && MatchesAt(s, a, p) && p < k < p + |a|
  }

  ghost function Rewrite(s: string, acronyms: set<string>): (r: string)
    ensures |r| == |s|
    ensures forall k :: 0 <= k < |s| ==> r[k] == if Covered(s, acronyms, k) then ToUpper(s[k]) else s[k]
  {
    seq(|s|, k requires 0 <= k < |s| => if Covered(s, acronyms, k) then ToUpper(s[k]) else s[k])
  }

  /** What makes the order of replacements irrelevant. */
  predicate Compatible(acronyms: set<string>) {
    && (forall a :: a in acronyms ==> IsAcronym(a))
    && (forall a :: a in acronyms ==> !(|a| == 2 && a[1] == 'S'))
    && (forall a, b :: a in acronyms && b in acronyms ==> a != b + "S")
  }

  // ----- Where acronyms can occur -----

  lemma MatchShape(s: string, a: string, p: nat)
    requires IsAcronym(a) && MatchesAt(s, a, p)
    ensures IsUpper(s[p]) && s[p] == a[0]
    ensures forall k :: p < k < p + |a| ==> IsLower(s[k]) && a[k - p] == ToUpper(s[k])
  {
    var t := TitleCase(a);
    assert forall k :: p <= k < p + |a| ==> s[k] == t[k - p];
  }

  /** Two acronyms never match at the same place. */
  lemma MatchesAreUnique(s: string, a: string, b: string, p: nat)
    requires IsAcronym(a) && IsAcronym(b) && MatchesAt(s, a, p) && MatchesAt(s, b, p)
    requires a != b + "S" && b != a + "S"
    ensures a == b
  {
    MatchShape(s, a, p);
    MatchShape(s, b, p);
    if |a| < |b| {
      ShorterMatch(s, a, b, p);
    } else if |b| < |a| {
      ShorterMatch(s, b, a, p);
    } else {
      SamePrefix(s, a, b, p);
    }
  }

  lemma SamePrefix(s: string, a: string, b: string, p: nat)
    requires IsAcronym(a) && IsAcronym(b) && |a| <= |b| && MatchesAt(s, a, p) && MatchesAt(s, b, p)
    ensures a == b[..|a|]
  {
    MatchShape(s, a, p);
    MatchShape(s, b, p);
    forall i | 0 <= i < |a|
      ensures a[i] == b[i]
    {
      if i > 0 {
        assert a[p + i - p] == ToUpper(s[p + i]) && b[p + i - p] == ToUpper(s[p + i]);
      }
    }
  }

  lemma ShorterMatch(s: string, a: string, b: string, p: nat)
    requires IsAcronym(a) && IsAcronym(b) && |a| < |b| && MatchesAt(s, a, p) && MatchesAt(s, b, p)
    ensures b == a + "S"
  {
    MatchShape(s, b, p);
    SamePrefix(s, a, b, p);
    var e := p + |a|;
    assert IsLower(s[e]) && s[e] == 's' && b[e - p] == 'S';
    assert |b| == |a| + 1;
  }

  /** An occurrence that reaches over a position starts at it or before it, never in the middle of another. */
  lemma NoOverlap(s: string, a: string, p: nat, b: string, q: nat)
    requires IsAcronym(a) && IsAcronym(b) && MatchesAt(s, a, p) && MatchesAt(s, b, q)
    ensures !(p < q < p + |a|)
  {
    MatchShape(s, a, p);
    MatchShape(s, b, q);
  }

  // ----- One replacement -----

  /** A match is rewritten to its acronym when no other one reaches over its start. */
  lemma MatchIsCovered(s: string, a: string, i: nat)
    requires IsAcronym(a) && MatchesAt(s, a, i)
    requires forall p: nat :: MatchesAt(s, a, p) ==> !(p < i < p + |a|)
    ensures i + |a| <= |s| && Rewrite(s, {a})[i..i + |a|] == a
  {
    var r, e := Rewrite(s, {a}), i + |a|;
    MatchShape(s, a, i);
    forall k | i <= k < e
      ensures r[k] == a[k - i]
    {
      if k == i {
        assert !Covered(s, {a}, k);
      } else {
        assert Covered(s, {a}, k);
      }
    }
  }

  /** The scan from `i` yields the rewrite from `i` when no occurrence reaches over `i`. */
  lemma {:induction false} ScanIsRewrite(s: string, a: string, i: nat)
    requires IsAcronym(a) && i <= |s|
    requires forall p: nat :: MatchesAt(s, a, p) ==> !(p < i < p + |a|)
    ensures ReplaceFrom(s, a, i) == Rewrite(s, {a})[i..]
    decreases |s| - i
  {
    hide MatchesAt, Rewrite, ReplaceFrom, IsAcronym;
    var r := Rewrite(s, {a});
    ReplaceStep(s, a, i);
    if i < |s| && MatchesAt(s, a, i) {
      MatchIsCovered(s, a, i);
      NoneReachesOverEnd(s, a, i);
      ScanIsRewrite(s, a, i + |a|);
      Cut(r, i, i + |a|, a);
    } else if i < |s| {
      NoneReachesOver(s, a, i);
      ScanIsRewrite(s, a, i + 1);
      Cut(r, i, i + 1, [s[i]]);
    }
  }

  lemma ReplaceStep(s: string, a: string, i: nat)
    requires IsAcronym(a) && i <= |s|
    ensures a != ""
    ensures i < |s| && MatchesAt(s, a, i) ==>
              i + |a| <= |s| && ReplaceFrom(s, a, i) == a + ReplaceFrom(s, a, i + |a|)
    ensures i < |s| && !MatchesAt(s, a, i) ==> ReplaceFrom(s, a, i) == [s[i]] + ReplaceFrom(s, a, i + 1)
    ensures i == |s| ==> ReplaceFrom(s, a, i) == ""
  {
  }

  lemma Cut(r: string, i: nat, e: nat, piece: string)
    requires i <= e <= |r| && r[i..e] == piece
    ensures r[i..] == piece + r[e..]
  {
  }

  lemma NoneReachesOverEnd(s: string, a: string, i: nat)
    requires IsAcronym(a) && MatchesAt(s, a, i)
    requires forall p: nat :: MatchesAt(s, a, p) ==> !(p < i < p + |a|)
    ensures forall p: nat :: MatchesAt(s, a, p) ==> !(p < i + |a| < p + |a|)
  {
    MatchShape(s, a, i);
    forall p: nat | MatchesAt(s, a, p)
      ensures !(p < i + |a| < p + |a|)
    {
      NoOverlap(s, a, i, a, p);
      MatchShape(s, a, p);
      assert p < i ==> p + |a| <= i;
    }
  }

  lemma NoneReachesOver(s: string, a: string, i: nat)
    requires IsAcronym(a) && i < |s| && !MatchesAt(s, a, i)
    requires forall p: nat :: MatchesAt(s, a, p) ==> !(p < i < p + |a|)
    ensures forall p: nat :: MatchesAt(s, a, p) ==> !(p < i + 1 < p + |a|)
    ensures Rewrite(s, {a})[i..i + 1] == [s[i]]
  {
    forall p: nat | MatchesAt(s, a, p)
      ensures !(p < i + 1 < p + |a|)
    {
      assert p != i;
    }
    assert !Covered(s, {a}, i);
  }

  lemma ReplaceIsRewrite(s: string, a: string)
    requires IsAcronym(a)
    ensures ReplaceFrom(s, a, 0) == Rewrite(s, {a})
  {
    ScanIsRewrite(s, a, 0);
    assert Rewrite(s, {a})[0..] == Rewrite(s, {a});
  }

  /** The plural keeps its small s. */
  lemma PluralIsKept(a: string)
    requires IsAcronym(a)
    ensures ReplaceFrom(TitleCase(a) + "s", a, 0) == a + "s"
  {
    var s := TitleCase(a) + "s";
    assert s[0..|a|] == TitleCase(a) && s[|a|] == 's';
    assert MatchesAt(s, a, 0);
    assert !MatchesAt(s, a, |a|);
    assert ReplaceFrom(s, a, |a| + 1) == "";
    assert ReplaceFrom(s, a, |a|) == "s";
  }

  // ----- Replacements do not disturb each other -----

  /** A rewritten position is a lower-case letter of the name turned upper-case. */
  lemma CoveredShape(s: string, done: set<string>, k: int)
    requires forall a :: a in done ==> IsAcronym(a)
    requires Covered(s, done, k)
    ensures 0 <= k < |s| && IsLower(s[k]) && IsUpper(Rewrite(s, done)[k])
  {
    var a, p: nat :| a in done && MatchesAt(s, a, p) && p < k < p + |a|;
    MatchShape(s, a, p);
  }

  /** An occurrence of an acronym still to come is untouched by the replacements so far. */
  lemma MatchSurvives(s: string, done: set<string>, a: string, p: nat)
    requires Compatible(done + {a}) && a !in done && MatchesAt(s, a, p)
    ensures MatchesAt(Rewrite(s, done), a, p)
  {
    var r, e := Rewrite(s, done), p + |a|;
    MatchShape(s, a, p);
    forall k | p <= k < e
      ensures !Covered(s, done, k)
    {
      if Covered(s, done, k) {
        CoveredShape(s, done, k);
        var b, q: nat :| b in done && MatchesAt(s, b, q) && q < k < q + |b|;
        NoOverlap(s, a, p, b, q);
        NoOverlap(s, b, q, a, p);
        assert q == p;
        MatchesAreUnique(s, a, b, p);
      }
    }
    assert r[p..e] == s[p..e];
    forall k | 0 <= k < |s| && !IsLower(s[k])
      ensures r[k] == s[k]
    {
      if Covered(s, done, k) {
        CoveredShape(s, done, k);
      }
    }
  }

  /** The replacements so far make no new occurrences, and leave none of the acronyms they replaced. */
  lemma MatchIsOld(s: string, done: set<string>, a: string, p: nat)
    requires Compatible(done + {a}) && MatchesAt(Rewrite(s, done), a, p)
    ensures MatchesAt(s, a, p) && a !in done
  {
    hide MatchesAt, Covered, Rewrite;
    MatchWasThere(s, done, a, p);
    if a in done {
      MatchCovers(s, done, a, p);
    }
  }

  lemma MatchCovers(s: string, done: set<string>, a: string, p: nat)
    requires Compatible(done) && a in done && MatchesAt(s, a, p)
    ensures Covered(s, done, p + 1)
  {
    assert IsAcronym(a);
  }

  lemma MatchWasThere(s: string, done: set<string>, a: string, p: nat)
    requires Compatible(done + {a}) && MatchesAt(Rewrite(s, done), a, p)
    ensures IsAcronym(a) && MatchesAt(s, a, p) && !Covered(s, done, p + 1)
  {
    var r, e := Rewrite(s, done), p + |a|;
    MatchShape(r, a, p);
    assert IsAcronym(a);
    forall k | p < k < e
      ensures !Covered(s, done, k)
    {
      if Covered(s, done, k) {
        CoveredShape(s, done, k);
      }
    }
    assert !Covered(s, done, p + 1);
    FirstLetterNotCovered(s, done, a, p);
    assert s[p..e] == r[p..e];
    NotCoveredBehind(s, done, p, e);
    if e < |s| && s[e] == 's' && e + 1 < |s| && Covered(s, done, e + 1) {
      CoveredNeighbour(s, done, e);
    }
    assert MatchesAt(s, a, p);
  }

  /** A covered first letter would be the last of an occurrence, and the lookahead there forbids it. */
  lemma FirstLetterNotCovered(s: string, done: set<string>, a: string, p: nat)
    requires Compatible(done + {a}) && MatchesAt(Rewrite(s, done), a, p)
    requires forall k :: p < k < p + |a| ==> !Covered(s, done, k)
    ensures !Covered(s, done, p)
  {
    var r := Rewrite(s, done);
    assert IsAcronym(a);
    MatchShape(r, a, p);
    assert !Covered(s, done, p + 1);
    assert r[p + 1] == s[p + 1] && IsLower(s[p + 1]) && a[p + 1 - p] == ToUpper(s[p + 1]);
    if |a| > 2 {
      assert !Covered(s, done, p + 2);
      assert r[p + 2] == s[p + 2];
    }
    forall b: string, q: nat | b in done && MatchesAt(s, b, q)
      ensures !(q < p < q + |b|)
    {
      assert !(q < p + 1 < q + |b|);
    }
  }

  /** Nothing covers the position behind an uncovered stretch of two or more. */
  lemma NotCoveredBehind(s: string, done: set<string>, p: nat, e: nat)
    requires p + 2 <= e && forall k :: p < k < e ==> !Covered(s, done, k)
    requires forall k :: p < k < e ==> k < |s| && IsLower(s[k])
    requires forall b :: b in done ==> IsAcronym(b)
    ensures !Covered(s, done, e)
  {
    forall b: string, q: nat | b in done && MatchesAt(s, b, q)
      ensures !(q < e < q + |b|)
    {
      MatchShape(s, b, q);
      assert !Covered(s, done, p + 1);
      assert !(q < p + 1 < q + |b|);
    }
  }

  lemma CoveredNeighbour(s: string, done: set<string>, e: nat)
    requires e < |s| && IsLower(s[e]) && Covered(s, done, e + 1)
    requires forall b :: b in done ==> IsAcronym(b)
    ensures Covered(s, done, e)
  {
    var b, q: nat :| b in done && MatchesAt(s, b, q) && q < e + 1 < q + |b|;
    MatchShape(s, b, q);
    assert q != e;
  }

  /** One more replacement adds its own occurrences in the original name and nothing else. */
  lemma RewriteOneMore(s: string, done: set<string>, a: string)
    requires Compatible(done + {a})
    ensures ReplaceFrom(Rewrite(s, done), a, 0) == Rewrite(s, done + {a})
  {
    var r, all := Rewrite(s, done), Rewrite(s, done + {a});
    assert IsAcronym(a);
    ReplaceIsRewrite(r, a);
    forall k | 0 <= k < |s|
      ensures Rewrite(r, {a})[k] == all[k]
    {
      CoveredByEither(s, done, a, k);
      if Covered(r, {a}, k) {
        var p: nat :| MatchesAt(r, a, p) && p < k < p + |a|;
        MatchIsOld(s, done, a, p);
        assert Covered(s, {a}, k);
      }
      if a !in done && Covered(s, {a}, k) {
        var p: nat :| MatchesAt(s, a, p) && p < k < p + |a|;
        MatchSurvives(s, done, a, p);
        assert Covered(r, {a}, k);
      }
      if Covered(s, done, k) {
        CoveredShape(s, done, k);
      }
    }
  }

  lemma CoveredByEither(s: string, done: set<string>, a: string, k: int)
    ensures Covered(s, done + {a}, k) <==> Covered(s, done, k) || Covered(s, {a}, k)
    ensures a in done && Covered(s, {a}, k) ==> Covered(s, done, k)
  {
    if Covered(s, done + {a}, k) {
      var b, q: nat :| b in done + {a} && b != "" && MatchesAt(s, b, q) && q < k < q + |b|;
      assert b in done || b in {a};
    }
  }

  // ----- The loop -----

  function ReplaceEach(s: string, acronyms: seq<string>): string
    requires forall i :: 0 <= i < |acronyms| ==> acronyms[i] != ""
    decreases |acronyms|
  {
    if acronyms == [] then s else ReplaceEach(ReplaceFrom(s, acronyms[0], 0), acronyms[1..])
  }

  lemma SubsetCompatible(some: set<string>, all: set<string>)
    requires Compatible(all) && some <= all
    ensures Compatible(some)
  {
  }

  lemma {:induction false} LoopIsRewrite(s: string, done: set<string>, acronyms: seq<string>)
    requires Compatible(done + Elements(acronyms))
    ensures forall i :: 0 <= i < |acronyms| ==> acronyms[i] != ""
    ensures ReplaceEach(Rewrite(s, done), acronyms) == Rewrite(s, done + Elements(acronyms))
    decreases |acronyms|
  {
    var all := done + Elements(acronyms);
    assert forall a :: a in acronyms ==> a in all && IsAcronym(a);
    if acronyms == [] {
      assert all == done;
    } else {
      var a, rest := acronyms[0], acronyms[1..];
      assert a in all;
      SubsetCompatible(done + {a}, all);
      RewriteOneMore(s, done, a);
      assert done + {a} + Elements(rest) == all by {
        assert acronyms == [a] + rest;
      }
      LoopIsRewrite(s, done + {a}, rest);
    }
  }

  function Elements(acronyms: seq<string>): set<string> {
    set a | a in acronyms
  }

  lemma NothingRewritten(s: string)
    ensures Rewrite(s, {}) == s
  {
  }

  /**
   The loop of replacements equals the simultaneous rewrite of the original name, for every
   compatible list of acronyms.
   */
  lemma ReplacementsAreSimultaneous(s: string, acronyms: seq<string>)
    requires Compatible(Elements(acronyms))
    ensures forall i :: 0 <= i < |acronyms| ==> acronyms[i] != ""
    ensures ReplaceEach(s, acronyms) == Rewrite(s, Elements(acronyms))
  {
    NothingRewritten(s);
    assert {} + Elements(acronyms) == Elements(acronyms);
    LoopIsRewrite(s, {}, acronyms);
  }

  /** The result does not depend on the order of the list, nor on repetitions in it. */
  lemma OrderDoesNotMatter(s: string, one: seq<string>, other: seq<string>)
    requires Compatible(Elements(one)) && Elements(one) == Elements(other)
    ensures forall i :: 0 <= i < |one| ==> one[i] != ""
    ensures forall i :: 0 <= i < |other| ==> other[i] != ""
    ensures ReplaceEach(s, one) == ReplaceEach(s, other)
  {
    ReplacementsAreSimultaneous(s, one);
    ReplacementsAreSimultaneous(s, other);
  }

  /** A rewritten name is not rewritten any further. */
  lemma RewriteIsIdempotent(s: string, acronyms: set<string>)
    requires Compatible(acronyms)
    ensures Rewrite(Rewrite(s, acronyms), acronyms) == Rewrite(s, acronyms)
  {
    var r := Rewrite(s, acronyms);
    forall k | 0 <= k < |s|
      ensures !Covered(r, acronyms, k)
    {
      if Covered(r, acronyms, k) {
        var a, p: nat :| a in acronyms && MatchesAt(r, a, p) && p < k < p + |a|;
        assert acronyms + {a} == acronyms;
        MatchIsOld(s, acronyms, a, p);
      }
    }
  }

  /** Only the case of letters changes. */
  lemma OnlyCaseChanges(s: string, acronyms: set<string>)
    requires forall a :: a in acronyms ==> IsAcronym(a)
    ensures |Rewrite(s, acronyms)| == |s|
    ensures forall k :: 0 <= k < |s| ==> ToLower(Rewrite(s, acronyms)[k]) == ToLower(s[k])
  {
    forall k | 0 <= k < |s| && Covered(s, acronyms, k)
      ensures ToLower(ToUpper(s[k])) == ToLower(s[k])
    {
      CoveredShape(s, acronyms, k);
    }
  }

  // ----- The list of the source -----

  const ACRONYMS_1 := ["SNTPNTS", "NTPNTS", "BLEUWB", "HVAC", "ICAC", "DAC", "MAC", "EVSE", "RFID", "PIR"]
  const ACRONYMS_2 := ["IPV", "ANSI", "BDX", "BLE", "CEC", "CO", "CSR", "DNS", "DST", "ESA"]
  const ACRONYMS_3 := ["EV", "GHG", "ICD", "IEC", "IP", "LED", "MLE", "NFC", "NOC", "SNTP"]
  const ACRONYMS_4 := ["NTP", "OTA", "PAI", "PHY", "PIN", "PI", "PV", "PAKE", "IPK", "LQI"]
  const ACRONYMS_5 := ["URI", "RF", "RMS", "UTC", "TC", "URL", "UWB", "VID", "AC", "ID"]
  const ACRONYMS := ACRONYMS_1 + ACRONYMS_2 + ACRONYMS_3 + ACRONYMS_4 + ACRONYMS_5

  /** An acronym that ends in S only where the rest is not an acronym of the list. */
  predicate Listed(a: string) {
    && IsAcronym(a)
    && (a[|a| - 1] == 'S' ==> a in {"SNTPNTS", "NTPNTS", "DNS", "RMS"})
    && a !in {"SNTPNT", "NTPNT", "DN", "RM"}
  }

  predicate AllListed(list: seq<string>) {
    forall i :: 0 <= i < |list| ==> Listed(list[i])
  }

  lemma Group1()
    ensures AllListed(ACRONYMS_1)
  {
  }

  lemma Group2()
    ensures AllListed(ACRONYMS_2)
  {
  }

  lemma Group3()
    ensures AllListed(ACRONYMS_3)
  {
  }

  lemma Group4()
    ensures AllListed(ACRONYMS_4)
  {
  }

  lemma Group5()
    ensures AllListed(ACRONYMS_5)
  {
  }

  lemma ListedConcat(a: seq<string>, b: seq<string>)
    requires AllListed(a) && AllListed(b)
    ensures AllListed(a + b)
  {
  }

  lemma ListedIsCompatible(list: seq<string>)
    requires AllListed(list)
    ensures Compatible(Elements(list))
  {
    forall a, b | a in Elements(list) && b in Elements(list)
      ensures a != b + "S"
    {
      var i: nat, j: nat :| i < |list| && list[i] == a && j < |list| && list[j] == b;
      assert Listed(list[i]) && Listed(list[j]);
      assert (b + "S")[..|b|] == b;
      assert "SNTPNTS"[..6] == "SNTPNT" && "NTPNTS"[..5] == "NTPNT" && "DNS"[..2] == "DN" && "RMS"[..2] == "RM";
    }
  }

  lemma GroupsAreCompatible(a: seq<string>, b: seq<string>, c: seq<string>, d: seq<string>, e: seq<string>)
    requires AllListed(a) && AllListed(b) && AllListed(c) && AllListed(d) && AllListed(e)
    ensures Compatible(Elements(a + b + c + d + e))
  {
    ListedConcat(a, b);
    ListedConcat(a + b, c);
    ListedConcat(a + b + c, d);
    ListedConcat(a + b + c + d, e);
    ListedIsCompatible(a + b + c + d + e);
  }

  /** No acronym of the source's list is another one followed by S, and no two-letter one ends in S. */
  lemma SourceListIsCompatible()
    ensures Compatible(Elements(ACRONYMS))
  {
    hide Compatible, AllListed;
    Group1();
    Group2();
    Group3();
    Group4();
    Group5();
    GroupsAreCompatible(ACRONYMS_1, ACRONYMS_2, ACRONYMS_3, ACRONYMS_4, ACRONYMS_5);
  }

  // ----- The function with its cache -----

  class ChipNames {
    var chipNameCache: map<string, string>

    constructor ()
      ensures Valid() && chipNameCache == map[]
    {
      chipNameCache := map[];
    }

    /** Every cached answer is the simultaneous rewrite of its name. */
    ghost predicate Valid()
      reads this
    {
      forall name :: name in chipNameCache ==> chipNameCache[name] == Rewrite(name, Elements(ACRONYMS))
    }

    /** `toChipName`: a cached answer equals a fresh one. */
    method ToChipName(name: string) returns (result: string)
      requires Valid()
      modifies this
      ensures Valid()
      ensures result == Rewrite(name, Elements(ACRONYMS))
      ensures chipNameCache == old(chipNameCache)[name := result]
    {
      hide Rewrite, Elements;
      if name in chipNameCache {
        return chipNameCache[name];
      }
      result := ApplyAll(name, ACRONYMS);
      SourceListIsCompatible();
      ReplacementsAreSimultaneous(name, ACRONYMS);
      chipNameCache := chipNameCache[name := result];
    }

    static method ApplyAll(name: string, acronyms: seq<string>) returns (result: string)
      requires forall i :: 0 <= i < |acronyms| ==> acronyms[i] != ""
      ensures result == ReplaceEach(name, acronyms)
    {
      result := name;
      for i := 0 to |acronyms|
        invariant ReplaceEach(result, acronyms[i..]) == ReplaceEach(name, acronyms)
      {
        assert acronyms[i..][0] == acronyms[i] && acronyms[i..][1..] == acronyms[i + 1..];
        result := ReplaceFrom(result, acronyms[i], 0);
      }
    }
  }
}
