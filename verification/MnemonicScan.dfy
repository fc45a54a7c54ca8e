/** The scan for seed phrases: windows over the words of a text, taken greedily from the left. */
module MnemonicScan {
  import opened Wrappers
  import opened Sequences

  /** A match of the word pattern: letters, and where they stand. */
  datatype Token = Token(word: string, index: nat)

  datatype Report = Report(first: nat, count: nat, start: nat, evidence: string)

  /** What the scan looks at: the text, its words, the word list, and the test for the context. */
  datatype Input = Input(text: string, tokens: seq<Token>, words: set<string>, context: string -> bool)

  const LENGTHS: seq<nat> := [12, 15, 18, 21, 24]

  function Lower(word: string): string {
    seq(|word|, i requires 0 <= i < |word| => if 'A' <= word[i] <= 'Z' then word[i] - 'A' + 'a' else word[i])
  }

  function KnownIn(tokens: seq<Token>, words: set<string>): nat {
    if tokens == [] then 0
    else KnownIn(tokens[1..], words) + if Lower(tokens[0].word) in words then 1 else 0
  }

  function StartOf(x: Input, i: nat): nat
    requires i < |x.tokens|
  {
    x.tokens[i].index
  }

  function EndOf(x: Input, i: nat, n: nat): nat
    requires 0 < n && i + n <= |x.tokens|
  {
    x.tokens[i + n - 1].index + |x.tokens[i + n - 1].word|
  }

  /** Seven words in ten are on the list, and the context speaks of a wallet or a seed. */
  predicate Qualifies(x: Input, i: nat, n: nat) {
    && 0 < n && i + n <= |x.tokens|
    && 10 * KnownIn(x.tokens[i..i + n], x.words) >= 7 * n
    && x.context(JsSlice(x.text, Max(0, StartOf(x, i) - 80), EndOf(x, i, n) + 80))
  }

  function ReportOf(x: Input, i: nat, n: nat): Report
    requires 0 < n && i + n <= |x.tokens|
  {
    Report(i, n, StartOf(x, i), JsSlice(x.text, StartOf(x, i), EndOf(x, i, n)))
  }

  /** The first of the lengths, from the `k`th on, at which a window here qualifies. */
  function Shortest(x: Input, i: nat, k: nat): (r: Option<nat>)
    requires k <= 5
    ensures r.Some? ==> 12 <= r.value && i + r.value <= |x.tokens|
    decreases 5 - k
  {
    if k == 5 then None
    else if Qualifies(x, i, LENGTHS[k]) then Some(LENGTHS[k])
    else Shortest(x, i, k + 1)
  }

  /** The reports from word `i` on. Behind a report one word more than the window is passed over. */
  function ScanFrom(x: Input, i: nat): seq<Report>
    decreases |x.tokens| - i
  {
    if i >= |x.tokens| then []
    else
      var n := Shortest(x, i, 0);
      if n.None? then ScanFrom(x, i + 1)
      else [ReportOf(x, i, n.value)] + ScanFrom(x, i + n.value + 1)
  }

  method DetectMnemonics(x: Input) returns (out: seq<Report>)
    ensures out == ScanFrom(x, 0)
  {
    hide Qualifies, ReportOf, ScanFrom;
    out := [];
    var i := 0;
    while i < |x.tokens|
      invariant out + ScanFrom(x, i) == ScanFrom(x, 0)
      decreases |x.tokens| - i
    {
      ghost var first, before := i, out;
      var k := 0;
      while k < 5
        invariant 0 <= k <= 5 && i == first && out == before
        invariant Shortest(x, i, 0) == Shortest(x, i, k)
      {
        var n := LENGTHS[k];
        if i + n > |x.tokens| {
          TooShort(x, i, n);
          k := k + 1;
          continue;
        }
        if Qualifies(x, i, n) {
          out := out + [ReportOf(x, i, n)];
          i := i + n;
          break;
        }
        k := k + 1;
      }
      i := i + 1;
      ScanAt(x, first);
      if k < 5 {
        Assoc(before, [ReportOf(x, first, LENGTHS[k])], ScanFrom(x, i));
      }
    }
    ScanAt(x, i);
    assert out + [] == out;
  }

  lemma TooShort(x: Input, i: nat, n: nat)
    requires i + n > |x.tokens|
    ensures !Qualifies(x, i, n)
  {
  }

  lemma ScanAt(x: Input, i: nat)
    ensures i >= |x.tokens| ==> ScanFrom(x, i) == []
    ensures i < |x.tokens| ==>
      var n := Shortest(x, i, 0);
      ScanFrom(x, i)
      == if n.None? then ScanFrom(x, i + 1) else [ReportOf(x, i, n.value)] + ScanFrom(x, i + n.value + 1)
  {
  }

  // ---------- What qualifies ----------

  /** The word is `w`, in whatever letters. */
  ghost predicate Spells(word: string, w: string) {
    && |word| == |w|
    && forall j :: 0 <= j < |w| ==> w[j] == word[j] || ('A' <= word[j] <= 'Z' && w[j] as int == word[j] as int + 32)
  }

  ghost predicate NoCapitals(w: string) {
    forall j :: 0 <= j < |w| ==> !('A' <= w[j] <= 'Z')
  }

  /** The places of a window whose words are on the list. */
  ghost function KnownPlaces(x: Input, i: nat, n: nat): set<nat>
    requires i + n <= |x.tokens|
  {
    set k: nat | i <= k < i + n && exists w :: w in x.words && Spells(x.tokens[k].word, w)
  }

  lemma LowerSpells(word: string, words: set<string>)
    requires forall w :: w in words ==> NoCapitals(w)
    ensures Lower(word) in words <==> exists w :: w in words && Spells(word, w)
  {
    if Lower(word) in words {
      assert Spells(word, Lower(word));
    }
    forall w | w in words && Spells(word, w) ensures Lower(word) == w {
      forall j | 0 <= j < |w| ensures Lower(word)[j] == w[j] {
        assert !('A' <= w[j] <= 'Z');
      }
    }
  }

  lemma {:induction false} KnownAreCounted(x: Input, i: nat, n: nat)
    requires i + n <= |x.tokens| && forall w :: w in x.words ==> NoCapitals(w)
    ensures KnownIn(x.tokens[i..i + n], x.words) == |KnownPlaces(x, i, n)|
    decreases n
  {
    if n == 0 {
      assert KnownPlaces(x, i, n) == {};
    } else {
      hide Lower, Spells, NoCapitals;
      var window := x.tokens[i..i + n];
      assert window[1..] == x.tokens[i + 1..i + 1 + (n - 1)] && window[0] == x.tokens[i];
      KnownAreCounted(x, i + 1, n - 1);
      LowerSpells(x.tokens[i].word, x.words);
      var rest := KnownPlaces(x, i + 1, n - 1);
      assert i !in rest;
      if Lower(x.tokens[i].word) in x.words {
        assert KnownPlaces(x, i, n) == rest + {i};
      } else {
        assert KnownPlaces(x, i, n) == rest;
      }
    }
  }

  /** A window qualifies, for a word list without capitals, if and only if it has twelve, fifteen, eighteen,
      twenty-one or twenty-four words, at least seven in ten of them on the list, and eighty characters to both sides
      of it make up a context that speaks of a wallet or a seed. */
  lemma QualifiesIff(x: Input, i: nat, n: nat)
    requires forall w :: w in x.words ==> NoCapitals(w)
    requires forall k :: 0 <= k < |x.tokens| ==> x.tokens[k].index + |x.tokens[k].word| <= |x.text|
    requires forall j, k :: 0 <= j < k < |x.tokens| ==> x.tokens[j].index < x.tokens[k].index
    ensures n in LENGTHS && Qualifies(x, i, n) <==>
      && (n == 12 || n == 15 || n == 18 || n == 21 || n == 24)
      && i + n <= |x.tokens|
      && 10 * |KnownPlaces(x, i, n)| >= 7 * n
      && var from, to := x.tokens[i].index, x.tokens[i + n - 1].index + |x.tokens[i + n - 1].word|;
         x.context(x.text[(if from < 80 then 0 else from - 80)..(if to + 80 < |x.text| then to + 80 else |x.text|)])
  {
    hide KnownPlaces;
    assert LENGTHS[0] == 12 && LENGTHS[1] == 15 && LENGTHS[2] == 18 && LENGTHS[3] == 21 && LENGTHS[4] == 24;
    if n > 0 && i + n <= |x.tokens| {
      KnownAreCounted(x, i, n);
      hide KnownIn, NoCapitals;
      WindowSlice(x, i, n);
    }
  }

  lemma WindowSlice(x: Input, i: nat, n: nat)
    requires 0 < n && i + n <= |x.tokens|
    requires forall k :: 0 <= k < |x.tokens| ==> x.tokens[k].index + |x.tokens[k].word| <= |x.text|
    requires forall j, k :: 0 <= j < k < |x.tokens| ==> x.tokens[j].index < x.tokens[k].index
    ensures var from, to := x.tokens[i].index, x.tokens[i + n - 1].index + |x.tokens[i + n - 1].word|;
      && from <= to <= |x.text|
      && JsSlice(x.text, Max(0, StartOf(x, i) - 80), EndOf(x, i, n) + 80)
         == x.text[(if from < 80 then 0 else from - 80)..(if to + 80 < |x.text| then to + 80 else |x.text|)]
      && JsSlice(x.text, StartOf(x, i), EndOf(x, i, n)) == x.text[from..to]
  {
  }

  /** A report holds where its window begins, and the text from there to the end of its last word. */
  lemma ReportTells(x: Input, i: nat, n: nat)
    requires 0 < n && i + n <= |x.tokens|
    requires forall k :: 0 <= k < |x.tokens| ==> x.tokens[k].index + |x.tokens[k].word| <= |x.text|
    requires forall j, k :: 0 <= j < k < |x.tokens| ==> x.tokens[j].index < x.tokens[k].index
    ensures var from, to := x.tokens[i].index, x.tokens[i + n - 1].index + |x.tokens[i + n - 1].word|;
      from <= to <= |x.text| && ReportOf(x, i, n) == Report(i, n, from, x.text[from..to])
  {
    hide JsSlice;
    WindowSlice(x, i, n);
  }

  // ---------- What is reported ----------

  /** A window of this many words is the shortest to qualify here. */
  ghost predicate ShortestAt(x: Input, i: nat, n: nat) {
    n in LENGTHS && Qualifies(x, i, n) && forall m :: m in LENGTHS && m < n ==> !Qualifies(x, i, m)
  }

  /** Some window qualifies here. */
  ghost predicate Starts(x: Input, i: nat) {
    exists n :: n in LENGTHS && Qualifies(x, i, n)
  }

  lemma ShortestIsShortest(x: Input, i: nat)
    ensures Starts(x, i) <==> Shortest(x, i, 0).Some?
    ensures forall n: nat :: ShortestAt(x, i, n) <==> Shortest(x, i, 0) == Some(n)
  {
    hide Qualifies;
    assert LENGTHS[0] == 12 && LENGTHS[1] == 15 && LENGTHS[2] == 18 && LENGTHS[3] == 21 && LENGTHS[4] == 24;
    assert forall n :: n in LENGTHS <==> n == 12 || n == 15 || n == 18 || n == 21 || n == 24;
    var r := Shortest(x, i, 0);
    assert r == if Qualifies(x, i, 12) then Some(12) else Shortest(x, i, 1);
    assert Shortest(x, i, 1) == if Qualifies(x, i, 15) then Some(15) else Shortest(x, i, 2);
    assert Shortest(x, i, 2) == if Qualifies(x, i, 18) then Some(18) else Shortest(x, i, 3);
    assert Shortest(x, i, 3) == if Qualifies(x, i, 21) then Some(21) else Shortest(x, i, 4);
    assert Shortest(x, i, 4) == if Qualifies(x, i, 24) then Some(24) else Shortest(x, i, 5);
  }

  /** The report's window or the word behind it covers this word, and starts before it. */
  predicate Blocks(r: Report, i: nat) {
    r.first < i <= r.first + r.count
  }

  ghost predicate Faithful(x: Input, r: Report) {
    ShortestAt(x, r.first, r.count) && r == ReportOf(x, r.first, r.count)
  }

  ghost predicate FarApart(out: seq<Report>) {
    forall j, k :: 0 <= j < k < |out| ==> out[j].first + out[j].count < out[k].first
  }

  ghost predicate Accounted(out: seq<Report>, i: nat) {
    exists r :: r in out && (r.first == i || Blocks(r, i))
  }

  /** Shortest windows, a word apart at least, and every start that qualifies accounted for. */
  ghost predicate IsScan(x: Input, out: seq<Report>, from: nat) {
    && (forall r :: r in out ==> from <= r.first && Faithful(x, r))
    && FarApart(out)
    && (forall i: nat :: i >= from && Starts(x, i) ==> Accounted(out, i))
  }

  lemma NothingStartsBehind(x: Input, i: nat)
    requires Starts(x, i)
    ensures i < |x.tokens|
  {
  }

  lemma {:induction false} ScanIsScan(x: Input, i: nat)
    ensures IsScan(x, ScanFrom(x, i), i)
    decreases |x.tokens| - i
  {
    hide *;
    ScanAt(x, i);
    if i >= |x.tokens| {
      EmptyScan(x, i);
    } else {
      ShortestIsShortest(x, i);
      var n := Shortest(x, i, 0);
      if n.None? {
        ScanIsScan(x, i + 1);
        PassOver(x, ScanFrom(x, i + 1), i);
      } else {
        ScanIsScan(x, i + n.value + 1);
        ScanStep(x, i, n.value, ScanFrom(x, i + n.value + 1));
      }
    }
  }

  lemma EmptyScan(x: Input, i: nat)
    requires i >= |x.tokens|
    ensures IsScan(x, [], i)
  {
    forall s: nat | s >= i ensures !Starts(x, s) {
      hide Starts;
      if Starts(x, s) { NothingStartsBehind(x, s); }
    }
  }

  lemma PassOver(x: Input, out: seq<Report>, i: nat)
    requires !Starts(x, i)
    ensures IsScan(x, out, i + 1) ==> IsScan(x, out, i)
  {
    hide Starts, Faithful, FarApart, Accounted;
  }

  lemma ScanStep(x: Input, i: nat, n: nat, rest: seq<Report>)
    requires i + n <= |x.tokens| && 12 <= n && ShortestAt(x, i, n)
    requires IsScan(x, rest, i + n + 1)
    ensures IsScan(x, [ReportOf(x, i, n)] + rest, i)
  {
    hide ShortestAt, Starts;
    var out := [ReportOf(x, i, n)] + rest;
    assert out[0] in out && Faithful(x, out[0]);
    hide Faithful;
    forall r | r in out ensures i <= r.first && Faithful(x, r) {
      assert r == out[0] || r in rest;
    }
    forall j, k | 0 <= j < k < |out| ensures out[j].first + out[j].count < out[k].first {
      assert out[k] == rest[k - 1] && rest[k - 1] in rest;
      if j > 0 { assert out[j] == rest[j - 1]; }
    }
    forall s: nat | i <= s && Starts(x, s) ensures Accounted(out, s) {
      if s > i + n {
        assert Accounted(rest, s);
        var r :| r in rest && (r.first == s || Blocks(r, s));
        assert r in out;
      }
    }
  }

  lemma FirstReport(x: Input, out: seq<Report>, i: nat)
    requires IsScan(x, out, i) && Starts(x, i)
    ensures out != [] && out[0].first == i && Faithful(x, out[0])
  {
    hide Faithful, Starts;
    assert Accounted(out, i);
    var r :| r in out && (r.first == i || Blocks(r, i));
    assert r.first == i;
    var k :| 0 <= k < |out| && out[k] == r;
    assert out[0] in out && out[0].first >= out[k].first;
  }

  lemma OtherReports(x: Input, out: seq<Report>, i: nat)
    requires IsScan(x, out, i) && out != [] && out[0].first == i
    ensures IsScan(x, out[1..], i + out[0].count + 1)
  {
    hide Faithful, Starts;
    var rest := out[1..];
    forall q | q in rest ensures i + out[0].count + 1 <= q.first && Faithful(x, q) {
      var j :| 0 <= j < |rest| && rest[j] == q;
      assert out[j + 1] == q;
    }
    forall s: nat | i + out[0].count + 1 <= s && Starts(x, s) ensures Accounted(rest, s) {
      assert Accounted(out, s);
      var q :| q in out && (q.first == s || Blocks(q, s));
      assert q != out[0] && (q == out[0] || q in rest);
    }
  }

  lemma NoReportHere(x: Input, out: seq<Report>, i: nat)
    requires IsScan(x, out, i) && !Starts(x, i)
    ensures IsScan(x, out, i + 1)
  {
    hide FarApart, Accounted;
    forall r | r in out ensures r.first != i {
      assert Faithful(x, r);
    }
  }

  lemma FaithfulFits(x: Input, r: Report)
    requires Faithful(x, r)
    ensures r.first < |x.tokens|
  {
  }

  lemma NoReportBehind(x: Input, out: seq<Report>, i: nat)
    requires IsScan(x, out, i) && i >= |x.tokens|
    ensures out == []
  {
    hide FarApart, Accounted, Faithful;
    forall r | r in out ensures r.first < |x.tokens| {
      FaithfulFits(x, r);
    }
    HeadIsMember(out);
  }

  lemma ScanBegins(x: Input, out: seq<Report>, i: nat)
    requires IsScan(x, out, i) && i < |x.tokens|
    ensures var n := Shortest(x, i, 0);
      if n.None? then IsScan(x, out, i + 1)
      else out != [] && out == [ReportOf(x, i, n.value)] + out[1..] && IsScan(x, out[1..], i + n.value + 1)
  {
    hide IsScan, Starts, Shortest, ShortestAt, ReportOf, Qualifies;
    ShortestIsShortest(x, i);
    if Starts(x, i) {
      FirstReport(x, out, i);
      OtherReports(x, out, i);
      assert out == [out[0]] + out[1..];
    } else {
      NoReportHere(x, out, i);
    }
  }

  /** Those three things leave no choice: they determine the reports. */
  lemma {:induction false} ScanIsUnique(x: Input, out: seq<Report>, i: nat)
    ensures IsScan(x, out, i) <==> out == ScanFrom(x, i)
    decreases |x.tokens| - i
  {
    hide *;
    ScanIsScan(x, i);
    if IsScan(x, out, i) {
      ScanAt(x, i);
      if i >= |x.tokens| {
        NoReportBehind(x, out, i);
      } else {
        var n := Shortest(x, i, 0);
        ScanBegins(x, out, i);
        ScanIsUnique(x, if n.None? then out else out[1..], if n.None? then i + 1 else i + n.value + 1);
      }
    }
  }

  /** A start that qualifies is missed exactly if an earlier report covers it or ends right before it. */
  lemma ReportedIffNotBlocked(x: Input, i: nat)
    requires Starts(x, i)
    ensures (exists r :: r in ScanFrom(x, 0) && r.first == i) <==> forall r :: r in ScanFrom(x, 0) ==> !Blocks(r, i)
  {
    ScanIsScan(x, 0);
    var out := ScanFrom(x, 0);
    assert Accounted(out, i) && FarApart(out);
    hide IsScan, ScanFrom, Faithful, Starts, FarApart;
    if q :| q in out && q.first == i {
      forall r | r in out ensures !Blocks(r, i) {
        OneOfTwoIsFirst(out, r, q);
      }
    }
  }

  lemma OneOfTwoIsFirst(out: seq<Report>, r: Report, q: Report)
    requires FarApart(out) && r in out && q in out
    ensures r == q || r.first + r.count < q.first || q.first + q.count < r.first
  {
    var j, k :| 0 <= j < |out| && 0 <= k < |out| && out[j] == r && out[k] == q;
    assert j < k || k < j || j == k;
  }

  /** Which starts a scan from the left takes: those behind the shortest window, and the word after it, of every start
      taken before. */
  ghost predicate Chosen(x: Input, i: nat)
    decreases i
  {
    && Starts(x, i)
    && forall j: nat, n: nat :: j < i && Chosen(x, j) && ShortestAt(x, j, n) ==> j + n < i
  }

  ghost predicate Reported(x: Input, i: nat) {
    exists r :: r in ScanFrom(x, 0) && r.first == i
  }

  lemma ReportedStart(x: Input, i: nat) returns (r: Report)
    requires Reported(x, i)
    ensures r in ScanFrom(x, 0) && r.first == i && ShortestAt(x, i, r.count) && Starts(x, i)
  {
    hide ScanFrom, Qualifies;
    ScanIsScan(x, 0);
    r :| r in ScanFrom(x, 0) && r.first == i;
    assert Faithful(x, r);
  }

  /** What is reported before, ends more than a word before. */
  lemma ReportedBefore(x: Input, j: nat, n: nat, i: nat)
    requires Reported(x, i) && Reported(x, j) && j < i && ShortestAt(x, j, n)
    ensures j + n < i
  {
    var q := ReportedStart(x, j);
    var r := ReportedStart(x, i);
    ShortestIsShortest(x, j);
    ScanIsScan(x, 0);
    hide ScanFrom, ShortestAt, Starts, Shortest;
    OneOfTwoIsFirst(ScanFrom(x, 0), q, r);
  }

  lemma NotReported(x: Input, i: nat) returns (r: Report)
    requires Starts(x, i) && !Reported(x, i)
    ensures Reported(x, r.first) && ShortestAt(x, r.first, r.count) && Blocks(r, i)
  {
    hide ScanFrom, Starts, ShortestAt;
    ScanIsScan(x, 0);
    assert Accounted(ScanFrom(x, 0), i);
    r :| r in ScanFrom(x, 0) && (r.first == i || Blocks(r, i));
    assert Faithful(x, r);
  }

  /** Reported are exactly the starts taken from the left. */
  lemma {:induction false} ReportedIffChosen(x: Input, i: nat)
    ensures Reported(x, i) <==> Chosen(x, i)
    decreases i
  {
    hide Reported, Starts, ShortestAt;
    forall j: nat | j < i { ReportedIffChosen(x, j); }
    if Reported(x, i) {
      var r := ReportedStart(x, i);
      forall j: nat, n: nat | j < i && Chosen(x, j) && ShortestAt(x, j, n) ensures j + n < i {
        ReportedBefore(x, j, n, i);
      }
    } else if Starts(x, i) {
      var r := NotReported(x, i);
      assert Chosen(x, r.first) && r.first < i;
    }
  }

  /** `k` reports take `13k - 1` words at least. */
  lemma {:induction false} ReportsNeedWords(x: Input, i: nat)
    ensures var k := |ScanFrom(x, i)|; k > 0 ==> i + 13 * k - 1 <= |x.tokens|
    decreases |x.tokens| - i
  {
    hide ScanFrom, Shortest, ReportOf;
    ScanAt(x, i);
    if i < |x.tokens| {
      var n := Shortest(x, i, 0);
      ReportsNeedWords(x, if n.None? then i + 1 else i + n.value + 1);
    }
  }

  /** Two phrases of twelve words, one right behind the other: only the first is reported. */
  lemma SecondPhraseMissed(x: Input)
    requires |x.tokens| == 24 && Qualifies(x, 0, 12) && Qualifies(x, 12, 12)
    ensures Starts(x, 12) && ScanFrom(x, 0) == [ReportOf(x, 0, 12)]
  {
    hide Qualifies, ScanFrom, ReportOf;
    assert LENGTHS[0] == 12;
    ScanAt(x, 0);
    ReportsNeedWords(x, 13);
  }
}
