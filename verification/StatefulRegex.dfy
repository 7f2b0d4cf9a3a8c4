/**
 Global regular expressions keep `lastIndex` between calls of `test` (RegExpBuiltinExec, section
 22.2.7.2 of ECMA-262): the validation of bucket class names (packages/odf/utils/mcg.ts) and the
 selection of Ceph health checks (packages/ocs/utils/ceph-health.ts).
 */
module StatefulRegex {
  import opened Options
  import opened Sequences
  import opened Strings

  // ----- bucket class names -----

  predicate IsAlnum(c: char) {
    'a' <= c <= 'z' || '0' <= c <= '9'
  }

  predicate IsInner(c: char) {
    IsAlnum(c) || c == '-' || c == '.'
  }

  predicate AllAlnum(s: string) {
    forall k :: 0 <= k < |s| ==> IsAlnum(s[k])
  }

  predicate AllInner(s: string) {
    forall k :: 0 <= k < |s| ==> IsInner(s[k])
  }

  /** The anchored pattern: three non-empty parts, of alphanumerics, inner characters, alphanumerics. */
  ghost predicate MatchesName(name: string) {
    exists i, j :: 0 < i < j < |name| && AllAlnum(name[..i]) && AllInner(name[i..j]) && AllAlnum(name[j..])
  }

  predicate MatchesNameCheck(name: string) {
    |name| >= 3 && IsAlnum(name[0]) && IsAlnum(name[|name| - 1]) && AllInner(name)
  }

  lemma NameCheckIsPattern(name: string)
    ensures MatchesNameCheck(name) <==> MatchesName(name)
  {
    if MatchesNameCheck(name) {
      var i, j := 1, |name| - 1;
      assert AllAlnum(name[..i]) && AllInner(name[i..j]) && AllAlnum(name[j..]);
    }
    if MatchesName(name) {
      var i, j :| 0 < i < j < |name| && AllAlnum(name[..i]) && AllInner(name[i..j]) && AllAlnum(name[j..]);
      forall k | 0 <= k < |name|
        ensures IsInner(name[k])
        ensures k == 0 || k == |name| - 1 ==> IsAlnum(name[k])
      {
        if k < i {
          assert IsAlnum(name[..i][k]);
        } else if k < j {
          assert IsInner(name[i..j][k - i]);
        } else {
          assert IsAlnum(name[j..][k - j]);
        }
      }
    }
  }

  /** `..` or `--` begins at `k`. */
  predicate DoubledAt(name: string, k: nat) {
    k + 1 < |name| && name[k] == name[k + 1] && (name[k] == '.' || name[k] == '-')
  }

  /** The first doubled character at or after `from`. */
  function NextDoubled(name: string, from: nat): (k: Option<nat>)
    ensures k.Some? ==> from <= k.value && DoubledAt(name, k.value)
    ensures k.Some? ==> forall j :: from <= j < k.value ==> !DoubledAt(name, j)
    ensures k.None? ==> forall j :: from <= j ==> !DoubledAt(name, j)
    decreases |name| - from
  {
    if from >= |name| then None
    else if DoubledAt(name, from) then Some(from)
    else NextDoubled(name, from + 1)
  }

  ghost predicate WellFormed(name: string) {
    3 <= |name| <= 63 && MatchesName(name) && forall k: nat :: !DoubledAt(name, k)
  }

  /** A well-formed name by its characters: 3 to 63 of a-z, 0-9, `.` and `-`, neither of the last two
      at an end, and none of them twice in a row. */
  lemma WellFormedIff(name: string)
    ensures WellFormed(name) <==>
              && 3 <= |name| <= 63
              && (forall k :: 0 <= k < |name| ==>
                    'a' <= name[k] <= 'z' || '0' <= name[k] <= '9' || (0 < k < |name| - 1 && name[k] in ['.', '-']))
              && (forall k :: 0 <= k < |name| - 1 ==> !(name[k] == name[k + 1] && name[k] in ['.', '-']))
  {
    NameCheckIsPattern(name);
    if WellFormed(name) {
      forall k: nat | k < |name| - 1
        ensures !(name[k] == name[k + 1] && name[k] in ['.', '-'])
      {
        assert !DoubledAt(name, k);
      }
    }
  }

  /** What one validation answers and leaves as `lastIndex`. */
  function Validated(lastIndex: nat, name: string): (bool, nat) {
    if 3 <= |name| <= 63 && MatchesNameCheck(name) then
      var found := if lastIndex > |name| then None else NextDoubled(name, lastIndex);
      if found.Some? then (false, found.value + 2) else (true, 0)
    else (false, lastIndex)
  }

  /** The module-level pattern for doubled characters. */
  class ConsecutivePattern {
    var lastIndex: nat

    constructor ()
      ensures lastIndex == 0
    {
      lastIndex := 0;
    }

    method Test(name: string) returns (found: bool)
      modifies this
      ensures var k := if old(lastIndex) > |name| then None else NextDoubled(name, old(lastIndex));
              found == k.Some? && lastIndex == if k.Some? then k.value + 2 else 0
    {
      if lastIndex > |name| {
        lastIndex := 0;
        return false;
      }
      var k := lastIndex;
      while k < |name|
        invariant lastIndex == old(lastIndex) <= k <= |name|
        invariant NextDoubled(name, k) == NextDoubled(name, lastIndex)
      {
        if DoubledAt(name, k) {
          lastIndex := k + 2;
          return true;
        }
        k := k + 1;
      }
      lastIndex := 0;
      found := false;
    }

    method ValidateBucketClassName(name: string) returns (valid: bool)
      modifies this
      ensures (valid, lastIndex) == Validated(old(lastIndex), name)
    {
      if |name| >= 3 && |name| <= 63 && MatchesNameCheck(name) {
        var doubled := Test(name);
        valid := !doubled;
      } else {
        valid := false;
      }
    }
  }

  /** `lastIndex` after validating these names from a fresh pattern. */
  function IndexAfter(names: seq<string>): nat {
    if names == [] then 0 else Validated(IndexAfter(names[..|names| - 1]), names[|names| - 1]).1
  }

  function Answer(names: seq<string>, name: string): bool {
    Validated(IndexAfter(names), name).0
  }

  /** A well-formed name is accepted after any history. */
  lemma WellFormedAccepted(names: seq<string>, name: string)
    requires WellFormed(name)
    ensures Answer(names, name)
  {
    NameCheckIsPattern(name);
  }

  /** A name is accepted exactly if it has the right length and characters and no doubled
      character from `lastIndex` on; past the end of the name `lastIndex` hides everything. */
  lemma AcceptedIff(names: seq<string>, name: string)
    ensures var from := IndexAfter(names);
            Answer(names, name) <==>
              3 <= |name| <= 63 && MatchesName(name) && forall k :: from <= k ==> !DoubledAt(name, k)
  {
    NameCheckIsPattern(name);
  }

  /** `lastIndex` is 0, as after any acceptance, or behind a doubled character, which cannot begin
      a name that reaches the pattern. */
  lemma {:induction false} IndexOrigin(names: seq<string>)
    ensures IndexAfter(names) == 0 || IndexAfter(names) >= 3
    ensures names != [] && Answer(names[..|names| - 1], names[|names| - 1]) ==> IndexAfter(names) == 0
  {
    if names == [] {
    } else {
      IndexOrigin(names[..|names| - 1]);
      var name := names[|names| - 1];
      if MatchesNameCheck(name) {
        assert !DoubledAt(name, 0);
      }
    }
  }

  /** After an acceptance the next name is judged as on a fresh pattern: a malformed one is rejected. */
  lemma RejectedAfterAcceptance(names: seq<string>, name: string)
    requires names != [] && Answer(names[..|names| - 1], names[|names| - 1])
    ensures Answer(names, name) <==> WellFormed(name)
  {
    IndexOrigin(names);
    AcceptedIff(names, name);
  }

  /** So no history accepts two malformed names in a row. */
  lemma NeverTwoMalformed(names: seq<string>, a: string, b: string)
    requires !WellFormed(a) && !WellFormed(b)
    ensures !(Answer(names, a) && Answer(names + [a], b))
  {
    assert (names + [a])[..|names|] == names;
    if Answer(names, a) {
      RejectedAfterAcceptance(names + [a], b);
    }
  }

  /** After a rejection a malformed name can pass: the same name twice, or a shorter one. */
  lemma MalformedCanPass()
    ensures !WellFormed("a..b") && !Answer([], "a..b") && Answer(["a..b"], "a..b")
  {
    var name := "a..b";
    assert DoubledAt(name, 1) && !DoubledAt(name, 0);
    assert MatchesNameCheck(name);
    assert NextDoubled(name, 0) == NextDoubled(name, 1) == Some(1);
    assert Validated(0, name) == (false, 3);
    assert [name][..0] == [];
    assert IndexAfter([name]) == 3;
    assert NextDoubled(name, 3) == NextDoubled(name, 4) == None;
  }

  // ----- health checks -----

  function UppersFrom(s: string, from: nat): (to: nat)
    requires from <= |s|
    ensures from <= to <= |s|
    decreases |s| - from
  {
    if from < |s| && IsUpper(s[from]) then UppersFrom(s, from + 1) else from
  }

  function UnderscoresFrom(s: string, from: nat): (to: nat)
    requires from <= |s|
    ensures from <= to <= |s|
    decreases |s| - from
  {
    if from < |s| && s[from] == '_' then UnderscoresFrom(s, from + 1) else from
  }

  /** The end of a match that begins exactly at `k`: capitals with underscores, or `error`. */
  function MatchAt(s: string, k: nat): (end: Option<nat>)
    ensures end.Some? ==> k < end.value <= |s|
  {
    if k < |s| && IsUpper(s[k]) then Some(UnderscoresFrom(s, UppersFrom(s, k + 1)))
    else if k + 5 <= |s| && s[k..k + 5] == "error" then Some(k + 5)
    else None
  }

  lemma {:induction false} UppersAre(s: string, from: nat)
    requires from <= |s|
    ensures var to := UppersFrom(s, from);
            (forall k :: from <= k < to ==> IsUpper(s[k])) && (to < |s| ==> !IsUpper(s[to]))
    decreases |s| - from
  {
    if from < |s| && IsUpper(s[from]) {
      UppersAre(s, from + 1);
    }
  }

  lemma {:induction false} UnderscoresAre(s: string, from: nat)
    requires from <= |s|
    ensures var to := UnderscoresFrom(s, from);
            (forall k :: from <= k < to ==> s[k] == '_') && (to < |s| ==> s[to] != '_')
    decreases |s| - from
  {
    if from < |s| && s[from] == '_' {
      UnderscoresAre(s, from + 1);
    }
  }

  /** Where a capital stands, the match is as many capitals as there are and then as many underscores
      as there are. */
  lemma CapitalsMatch(s: string, k: nat) returns (m: nat, end: nat)
    requires k < |s| && 'A' <= s[k] <= 'Z'
    ensures k < m <= end <= |s| && MatchAt(s, k) == Some(end)
    ensures forall i :: k <= i < m ==> 'A' <= s[i] <= 'Z'
    ensures m < |s| ==> !('A' <= s[m] <= 'Z')
    ensures forall i :: m <= i < end ==> s[i] == '_'
    ensures end < |s| ==> s[end] != '_'
  {
    m := UppersFrom(s, k + 1);
    UppersAre(s, k + 1);
    UnderscoresAre(s, m);
    end := UnderscoresFrom(s, m);
  }

  /** Where none stands, it is the word `error`. */
  lemma ErrorMatch(s: string, k: nat)
    requires !(k < |s| && 'A' <= s[k] <= 'Z')
    ensures MatchAt(s, k) == if k + 5 <= |s| && s[k..k + 5] == "error" then Some(k + 5) else None
  {
  }

  /** The end of the first match at or after `from`. */
  function NextMatch(s: string, from: nat): (end: Option<nat>)
    ensures end.Some? ==> from < end.value <= |s|
    decreases |s| - from
  {
    if from > |s| then None
    else if MatchAt(s, from).Some? then MatchAt(s, from)
    else NextMatch(s, from + 1)
  }

  /** No match is found exactly if none begins at or after `from`. */
  lemma {:induction false} NoMatchIff(s: string, from: nat)
    ensures NextMatch(s, from).None? <==> forall k: nat :: from <= k ==> MatchAt(s, k).None?
    decreases |s| - from
  {
    if from > |s| {
    } else if MatchAt(s, from).None? {
      NoMatchIff(s, from + 1);
    }
  }

  /** The match found is the first that begins at or after `from`. */
  lemma {:induction false} FirstMatch(s: string, from: nat)
    requires NextMatch(s, from).Some?
    ensures exists k: nat ::
              from <= k && NextMatch(s, from) == MatchAt(s, k) && forall i: nat :: from <= i < k ==> MatchAt(s, i).None?
    decreases |s| - from
  {
    if MatchAt(s, from).Some? {
    } else {
      FirstMatch(s, from + 1);
      var k: nat :| from + 1 <= k && NextMatch(s, from + 1) == MatchAt(s, k)
                    && forall i: nat :: from + 1 <= i < k ==> MatchAt(s, i).None?;
      assert forall i: nat :: from <= i < k ==> MatchAt(s, i).None?;
    }
  }

  /** Whether a fresh pattern would match. */
  predicate Qualifies(key: string) {
    NextMatch(key, 0).Some?
  }

  lemma {:induction false} NextMatchEarlier(s: string, from: nat)
    requires NextMatch(s, from).Some?
    ensures NextMatch(s, 0).Some?
  {
    if from == 0 {
    } else {
      NextMatchEarlier(s, from - 1);
    }
  }

  /** `lastIndex` when the loop reaches key `i`. */
  function LastIndexAt(keys: seq<string>, i: nat): nat
    requires i <= |keys|
  {
    if i == 0 then 0
    else
      var end := NextMatch(keys[i - 1], LastIndexAt(keys, i - 1));
      if end.Some? then end.value else 0
  }

  predicate IsReported(keys: seq<string>, i: nat)
    requires i < |keys|
  {
    NextMatch(keys[i], LastIndexAt(keys, i)).Some?
  }

  function Reported(keys: seq<string>, i: nat): seq<string>
    requires i <= |keys|
  {
    if i == 0 then [] else Reported(keys, i - 1) + if IsReported(keys, i - 1) then [keys[i - 1]] else []
  }

  method GetCephHealthChecks(keys: seq<string>) returns (healthChecks: seq<string>)
    ensures healthChecks == Reported(keys, |keys|)
  {
    var lastIndex := 0;
    healthChecks := [];
    for i := 0 to |keys|
      invariant lastIndex == LastIndexAt(keys, i) && healthChecks == Reported(keys, i)
    {
      var end := NextMatch(keys[i], lastIndex);
      if end.Some? {
        healthChecks := healthChecks + [keys[i]];
        lastIndex := end.value;
      } else {
        lastIndex := 0;
      }
    }
  }

  /** Each key is tested from the end of the match in the key before it, or from the start if that one
      was not reported. */
  lemma LastIndexIs(keys: seq<string>, n: nat)
    requires n < |keys|
    ensures LastIndexAt(keys, 0) == 0
    ensures var before := NextMatch(keys[n], LastIndexAt(keys, n));
            && (IsReported(keys, n) <==> before.Some?)
            && LastIndexAt(keys, n + 1) == if before.Some? then before.value else 0
  {
  }

  lemma PicksMore(keys: seq<string>, at: seq<nat>, chosen: seq<string>, n: nat)
    requires Picks(keys, at, chosen) && n < |keys| && forall k :: k in at ==> k < n
    ensures Picks(keys, at + [n], chosen + [keys[n]])
  {
    var more := at + [n];
    forall i, j | 0 <= i < j < |more|
      ensures more[i] < more[j]
    {
      assert at[i] in at;
    }
  }

  /** The positions of the reported keys among the first `n`. */
  function ReportedAt(keys: seq<string>, n: nat): seq<nat>
    requires n <= |keys|
  {
    if n == 0 then [] else ReportedAt(keys, n - 1) + if IsReported(keys, n - 1) then [n - 1] else []
  }

  lemma {:induction false} ReportedAtHas(keys: seq<string>, n: nat, k: nat)
    requires n <= |keys|
    ensures k in ReportedAt(keys, n) <==> k < n && IsReported(keys, k)
  {
    if n == 0 {
    } else {
      ReportedAtHas(keys, n - 1, k);
    }
  }

  lemma PicksNext(
    keys: seq<string>, at: seq<nat>, chosen: seq<string>, n: nat, reported: bool, at': seq<nat>, chosen': seq<string>)
    requires Picks(keys, at, chosen) && n < |keys| && forall k :: k in at ==> k < n
    requires at' == at + if reported then [n] else []
    requires chosen' == chosen + if reported then [keys[n]] else []
    ensures Picks(keys, at', chosen')
  {
    if reported {
      PicksMore(keys, at, chosen, n);
    } else {
      assert at' == at && chosen' == chosen;
    }
  }

  /** The result holds the reported keys, in their order. */
  lemma {:induction false} ReportedPicks(keys: seq<string>, n: nat)
    requires n <= |keys|
    ensures Picks(keys, ReportedAt(keys, n), Reported(keys, n))
  {
    if n == 0 {
    } else {
      ReportedPicks(keys, n - 1);
      var at := ReportedAt(keys, n - 1);
      forall k | k in at
        ensures k < n - 1
      {
        ReportedAtHas(keys, n - 1, k);
      }
      PicksNext(keys, at, Reported(keys, n - 1), n - 1, IsReported(keys, n - 1),
                ReportedAt(keys, n), Reported(keys, n));
    }
  }

  /** The keys that a fresh pattern would report. */
  function Qualifying(keys: seq<string>, i: nat): seq<string>
    requires i <= |keys|
  {
    if i == 0 then [] else Qualifying(keys, i - 1) + if Qualifies(keys[i - 1]) then [keys[i - 1]] else []
  }

  predicate IsSubsequence(xs: seq<string>, ys: seq<string>)
    decreases |ys|
  {
    if xs == [] then true
    else if ys == [] then false
    else
      var x, y := xs[|xs| - 1], ys[|ys| - 1];
      IsSubsequence(if x == y then xs[..|xs| - 1] else xs, ys[..|ys| - 1])
  }

  lemma {:induction false} SubsequenceFront(xs: seq<string>, ys: seq<string>)
    requires xs != [] && IsSubsequence(xs, ys)
    ensures IsSubsequence(xs[..|xs| - 1], ys)
    decreases |ys|
  {
    var front, rest := xs[..|xs| - 1], ys[..|ys| - 1];
    if xs[|xs| - 1] == ys[|ys| - 1] {
      if front != [] && front[|front| - 1] == ys[|ys| - 1] {
        SubsequenceFront(front, rest);
      }
    } else {
      SubsequenceFront(xs, rest);
      if front != [] && front[|front| - 1] == ys[|ys| - 1] {
        SubsequenceFront(front, rest);
      }
    }
  }

  lemma SubsequenceSnoc(xs: seq<string>, ys: seq<string>, y: string)
    requires IsSubsequence(xs, ys)
    ensures IsSubsequence(xs, ys + [y]) && IsSubsequence(xs + [y], ys + [y])
  {
    assert (ys + [y])[..|ys|] == ys && (xs + [y])[..|xs|] == xs;
    if xs != [] && xs[|xs| - 1] == y {
      SubsequenceFront(xs, ys);
    }
  }

  /** The reported keys are keys that should be reported, in order. */
  lemma {:induction false} ReportsSubsequence(keys: seq<string>, i: nat)
    requires i <= |keys|
    ensures IsSubsequence(Reported(keys, i), Qualifying(keys, i))
  {
    if i == 0 {
    } else {
      ReportsSubsequence(keys, i - 1);
      if IsReported(keys, i - 1) {
        NextMatchEarlier(keys[i - 1], LastIndexAt(keys, i - 1));
      }
      SubsequenceSnoc(Reported(keys, i - 1), Qualifying(keys, i - 1), keys[i - 1]);
      assert Reported(keys, i - 1) + [] == Reported(keys, i - 1);
      assert Qualifying(keys, i - 1) + [] == Qualifying(keys, i - 1);
    }
  }

  lemma {:induction false} LastIndexStaysZero(keys: seq<string>, i: nat, j: nat)
    requires i <= j < |keys|
    requires i == 0 || !IsReported(keys, i - 1)
    requires forall k :: i <= k < j ==> !Qualifies(keys[k])
    ensures LastIndexAt(keys, j) == 0
  {
    if i == j {
    } else {
      LastIndexStaysZero(keys, i, j - 1);
      assert !Qualifies(keys[j - 1]);
    }
  }

  /** A key is skipped only because of where the match in an earlier key ended, so the qualifying
      key after a skipped one is reported, as is the first one of all. */
  lemma {:induction false} NeverSkipsTwo(keys: seq<string>, i: nat, j: nat)
    requires i <= j < |keys| && Qualifies(keys[j])
    requires i == 0 || !IsReported(keys, i - 1)
    requires forall k :: i <= k < j ==> !Qualifies(keys[k])
    ensures IsReported(keys, j)
  {
    LastIndexStaysZero(keys, i, j);
  }

  /** The key before was reported, and no match begins in this one at or after the end of the match
      in that one. */
  ghost predicate Overshot(keys: seq<string>, i: nat)
    requires i < |keys|
  {
    && i > 0 && IsReported(keys, i - 1)
    && forall k: nat :: LastIndexAt(keys, i) <= k ==> MatchAt(keys[i], k).None?
  }

  /** Exactly when a key that should be reported is skipped. */
  lemma SkippedIff(keys: seq<string>, i: nat)
    requires i < |keys| && Qualifies(keys[i])
    ensures !IsReported(keys, i) <==> Overshot(keys, i)
  {
    NoMatchIff(keys[i], LastIndexAt(keys, i));
    if i > 0 && !IsReported(keys, i - 1) {
      assert LastIndexAt(keys, i) == 0;
    }
  }

  lemma SnocEqual(r: seq<string>, q: seq<string>, key: string, reported: bool, qualifies: bool)
    requires |r| <= |q| && (reported ==> qualifies)
    ensures var r', q' := r + (if reported then [key] else []), q + (if qualifies then [key] else []);
            |r'| <= |q'| && (r' == q' <==> r == q && reported == qualifies)
  {
    if reported {
      assert (r + [key])[..|r|] == r && (q + [key])[..|q|] == q;
    } else {
      assert r + [] == r && q + [] == q;
    }
  }

  ghost predicate Skips(keys: seq<string>, i: nat)
    requires i < |keys|
  {
    Qualifies(keys[i]) && Overshot(keys, i)
  }

  ghost predicate NoneSkipped(keys: seq<string>, n: nat)
    requires n <= |keys|
  {
    forall i :: 0 <= i < n ==> !Skips(keys, i)
  }

  lemma ReportedAndSkipped(keys: seq<string>, i: nat)
    requires i < |keys|
    ensures IsReported(keys, i) ==> Qualifies(keys[i])
    ensures Skips(keys, i) <==> Qualifies(keys[i]) && !IsReported(keys, i)
  {
    if IsReported(keys, i) {
      NextMatchEarlier(keys[i], LastIndexAt(keys, i));
    }
    if Qualifies(keys[i]) {
      SkippedIff(keys, i);
    }
  }

  /** Exactly when all keys that should be reported are. */
  lemma {:induction false} AllReportedIff(keys: seq<string>, n: nat)
    requires n <= |keys|
    ensures |Reported(keys, n)| <= |Qualifying(keys, n)|
    ensures Reported(keys, n) == Qualifying(keys, n) <==> NoneSkipped(keys, n)
  {
    if n == 0 {
      assert Reported(keys, n) == Qualifying(keys, n) == [];
    } else {
      AllReportedIff(keys, n - 1);
      var reported, qualifies := IsReported(keys, n - 1), Qualifies(keys[n - 1]);
      ReportedAndSkipped(keys, n - 1);
      SnocEqual(Reported(keys, n - 1), Qualifying(keys, n - 1), keys[n - 1], reported, qualifies);
    }
  }

  // ----- health codes -----

  predicate IsCodeChar(c: char) {
    IsUpper(c) || c == '_'
  }

  /** A health code of Ceph: capitals and underscores, ending in a capital. */
  predicate IsHealthCode(key: string) {
    key != "" && IsUpper(key[|key| - 1]) && forall k :: 0 <= k < |key| ==> IsCodeChar(key[k])
  }

  /** In a health code some match begins wherever anything is left, at the last capital if not earlier. */
  lemma CodeMatches(key: string, from: nat)
    requires IsHealthCode(key)
    ensures NextMatch(key, from).Some? <==> from < |key|
  {
    NoMatchIff(key, from);
    if from < |key| {
      assert MatchAt(key, |key| - 1).Some?;
    }
  }

  /** So health codes all qualify, and one is reported exactly if it is longer than `lastIndex`. */
  lemma CodeReportedIff(keys: seq<string>, i: nat)
    requires i < |keys| && IsHealthCode(keys[i])
    ensures Qualifies(keys[i])
    ensures IsReported(keys, i) <==> LastIndexAt(keys, i) < |keys[i]|
  {
    CodeMatches(keys[i], 0);
    CodeMatches(keys[i], LastIndexAt(keys, i));
  }

  /** No code is skipped that is longer than the key before it; codes of growing length are all
      reported. */
  lemma LongerIsReported(keys: seq<string>, i: nat)
    requires i < |keys| && IsHealthCode(keys[i]) && (i > 0 ==> |keys[i - 1]| < |keys[i]|)
    ensures IsReported(keys, i)
  {
    CodeReportedIff(keys, i);
  }

  lemma {:induction false} UppersTo(s: string, from: nat, to: nat)
    requires from <= to <= |s|
    requires forall k :: from <= k < to ==> IsUpper(s[k])
    requires to < |s| ==> !IsUpper(s[to])
    ensures UppersFrom(s, from) == to
    decreases |s| - from
  {
    if from == to {
    } else {
      UppersTo(s, from + 1, to);
    }
  }

  lemma {:induction false} UnderscoresTo(s: string, from: nat, to: nat)
    requires from <= to <= |s|
    requires forall k :: from <= k < to ==> s[k] == '_'
    requires to < |s| ==> s[to] != '_'
    ensures UnderscoresFrom(s, from) == to
    decreases |s| - from
  {
    if from == to {
    } else {
      UnderscoresTo(s, from + 1, to);
    }
  }

  /** Words and underscores of the first code up to 7, one more capital of the second, and no more
      than eight characters in the third. */
  lemma ThirdIsSkipped(a: string, b: string, c: string)
    requires IsHealthCode(a) && IsHealthCode(b) && IsHealthCode(c)
    requires |a| > 7 && a[6] == '_' && a[7] != '_' && forall k :: 0 <= k < 6 ==> IsUpper(a[k])
    requires |b| == 8 && |c| <= 8
    ensures var keys := [a, b, c];
            IsReported(keys, 0) && IsReported(keys, 1) && !IsReported(keys, 2)
  {
    var keys := [a, b, c];
    UppersTo(a, 1, 6);
    UnderscoresTo(a, 6, 7);
    assert LastIndexAt(keys, 0) == 0;
    assert LastIndexAt(keys, 1) == 7;
    UppersTo(b, 8, 8);
    UnderscoresTo(b, 8, 8);
    assert NextMatch(b, 7) == MatchAt(b, 7) == Some(8);
    assert LastIndexAt(keys, 2) == 8;
    CodeReportedIff(keys, 0);
    CodeReportedIff(keys, 1);
    CodeReportedIff(keys, 2);
  }

  /** A code is skipped behind the rest of a longer one. */
  lemma QualifyingKeyCanBeSkipped()
    ensures var keys := ["RECENT_CRASH", "OSD_DOWN", "OSD_FULL"];
            && (forall k :: 0 <= k < |keys| ==> IsHealthCode(keys[k]))
            && IsReported(keys, 0) && IsReported(keys, 1) && !IsReported(keys, 2)
  {
    ThirdIsSkipped("RECENT_CRASH", "OSD_DOWN", "OSD_FULL");
  }
}
