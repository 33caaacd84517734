/** The gateway's word-statistics table: a `collections.Counter` mapping
    every word served by the random-article route to the number of times
    it was served, and its `most_common(n)` query.

    A `Counter` is a dictionary, so it also remembers the order in which
    its words were first recorded; `most_common` sorts stably by count,
    highest first, so equal counts keep that order. The table is therefore
    modelled as the counts together with the first-recorded order. */
module Statistics {

  type Word = string

  /** One record of the common-words answer: `{'word': ..., 'frequency': ...}`. */
  datatype Entry = Entry(word: Word, frequency: nat)

  /** The abstract value of the table: the count of every recorded word and
      the words in the order they were first recorded. */
  datatype Table = Table(counts: map<Word, nat>, order: seq<Word>)

  predicate Distinct(s: seq<Word>) {
    forall i, j :: 0 <= i < j < |s| ==> s[i] != s[j]
  }

  /** The table invariant: `order` lists every counted word exactly once,
      and every stored count is at least 1 (a word enters the table only
      by being recorded). */
  ghost predicate WellFormed(t: Table) {
    && Distinct(t.order)
    && (forall w :: w in t.counts <==> w in t.order)
    && (forall w :: w in t.counts ==> t.counts[w] >= 1)
  }

  /** The table the process starts with. */
  const Empty: Table := Table(map[], [])

  /** A `Counter` answers 0 for a word it has never seen. */
  function CountOf(t: Table, w: Word): nat {
    if w in t.counts then t.counts[w] else 0
  }

  /** `WORD_STATISTICS[word] += 1`: the count of `w` rises by exactly one
      (from 0 for a new word), no other count changes, a new word is
      appended to the recording order, and the invariant is kept. */
  function Record(t: Table, w: Word): (t': Table)
    ensures CountOf(t', w) == CountOf(t, w) + 1
    ensures forall x :: x != w ==> CountOf(t', x) == CountOf(t, x)
    ensures t'.counts.Keys == t.counts.Keys + {w}
    ensures WellFormed(t) ==> WellFormed(t') && t.order <= t'.order
  {
    if w in t.counts then Table(t.counts[w := t.counts[w] + 1], t.order)
    else Table(t.counts[w := 1], t.order + [w])
  }

  /** The table after recording the words `ws` one after the other, starting empty. */
  function Replay(ws: seq<Word>): Table {
    if ws == [] then Empty else Record(Replay(ws[..|ws| - 1]), ws[|ws| - 1])
  }

  /** Index of the first occurrence of `w` in `s`. */
  function IndexOf(s: seq<Word>, w: Word): (i: nat)
    requires w in s
    ensures i < |s| && s[i] == w
    ensures forall j :: 0 <= j < i ==> s[j] != w
  {
    if s[0] == w then 0 else 1 + IndexOf(s[1..], w)
  }

  lemma {:induction false} IndexOfAppend(s: seq<Word>, x: Word, w: Word)
    requires w in s
    ensures IndexOf(s + [x], w) == IndexOf(s, w)
  {
    var i := IndexOf(s, w);
    assert (s + [x])[i] == w;
    assert forall j :: 0 <= j < i ==> (s + [x])[j] == s[j];
  }

  /** After any sequence of recordings the table is well formed and its
      recording order holds exactly the recorded words. */
  lemma {:induction false} ReplayWellFormed(ws: seq<Word>)
    ensures WellFormed(Replay(ws))
    ensures forall w :: w in Replay(ws).order <==> w in ws
  {
    if ws != [] {
      var p, x := ws[..|ws| - 1], ws[|ws| - 1];
      assert ws == p + [x];
      ReplayWellFormed(p);
    }
  }

  /** After any sequence of recordings the count of each word is the
      number of times it was recorded. */
  lemma {:induction false} ReplayCounts(ws: seq<Word>)
    ensures forall w :: CountOf(Replay(ws), w) == multiset(ws)[w]
  {
    if ws != [] {
      var p, x := ws[..|ws| - 1], ws[|ws| - 1];
      assert ws == p + [x];
      ReplayCounts(p);
    }
  }

  /** The words of `order` appear in `ws` in the same relative order. */
  ghost predicate FirstOccurrenceOrder(order: seq<Word>, ws: seq<Word>) {
    && (forall i :: 0 <= i < |order| ==> order[i] in ws)
    && (forall i, j :: 0 <= i < j < |order| ==> IndexOf(ws, order[i]) < IndexOf(ws, order[j]))
  }

  lemma ReplayAppend(p: seq<Word>, x: Word)
    ensures Replay(p + [x]) == Record(Replay(p), x)
  {
  }

  /** The recording order lists the words in the order of their first
      occurrence in the recorded sequence. */
  lemma {:induction false} ReplayOrder(ws: seq<Word>)
    ensures FirstOccurrenceOrder(Replay(ws).order, ws)
  {
    if ws != [] {
      var p, x := ws[..|ws| - 1], ws[|ws| - 1];
      assert ws == p + [x];
      ReplayOrder(p);
      ReplayWellFormed(p);
      ReplayAppend(p, x);
      OrderStep(Replay(p).order, p, x);
    }
  }

  /** One recording keeps the first-occurrence order: an unseen word goes last. */
  lemma OrderStep(o: seq<Word>, p: seq<Word>, x: Word)
    requires FirstOccurrenceOrder(o, p) && (forall w :: w in o <==> w in p)
    ensures FirstOccurrenceOrder(if x in p then o else o + [x], p + [x])
  {
    var o' := if x in p then o else o + [x];
    forall i | 0 <= i < |o| ensures IndexOf(p + [x], o[i]) == IndexOf(p, o[i]) {
      IndexOfAppend(p, x, o[i]);
    }
    if x !in p {
      assert IndexOf(p + [x], x) == |p|;
      forall i, j | 0 <= i < j < |o'| ensures IndexOf(p + [x], o'[i]) < IndexOf(p + [x], o'[j]) {
        assert o'[i] == o[i];
        if j < |o| {
          assert o'[j] == o[j];
        }
      }
    }
  }

  // ---------------------------------------------------------------------
  // The ranking used by `most_common`

  /** `a` is listed before `b`: a higher count, or the same count and an
      earlier first recording in `order`. */
  ghost predicate Precedes(counts: map<Word, nat>, order: seq<Word>, a: Word, b: Word)
    requires a in counts && b in counts && a in order && b in order
  {
    counts[a] > counts[b] || (counts[a] == counts[b] && IndexOf(order, a) < IndexOf(order, b))
  }

  ghost predicate RankedBy(counts: map<Word, nat>, order: seq<Word>, s: seq<Word>) {
    && (forall i :: 0 <= i < |s| ==> s[i] in counts && s[i] in order)
    && (forall i, j :: 0 <= i < j < |s| ==> Precedes(counts, order, s[i], s[j]))
  }

  /** Insert `w` before the first word whose count is not higher than its own. */
  function Insert(counts: map<Word, nat>, w: Word, s: seq<Word>): (r: seq<Word>)
    requires w in counts && forall i :: 0 <= i < |s| ==> s[i] in counts
    ensures multiset(r) == multiset(s) + multiset{w}
  {
    if s == [] then [w]
    else if counts[w] >= counts[s[0]] then [w] + s
    else
      assert s == [s[0]] + s[1..];
      [s[0]] + Insert(counts, w, s[1..])
  }

  /** A stable sort of `ws` by count, highest first: Python's
      `sorted(items, key=count, reverse=True)`. */
  function SortByCount(counts: map<Word, nat>, ws: seq<Word>): (r: seq<Word>)
    requires forall i :: 0 <= i < |ws| ==> ws[i] in counts
    ensures multiset(r) == multiset(ws)
  {
    if ws == [] then []
    else
      assert ws == [ws[0]] + ws[1..];
      var r' := SortByCount(counts, ws[1..]);
      assert forall i :: 0 <= i < |r'| ==> r'[i] in multiset(ws[1..]);
      Insert(counts, ws[0], r')
  }

  lemma {:induction false} InsertRanked(counts: map<Word, nat>, order: seq<Word>, w: Word, s: seq<Word>)
    requires w in counts && w in order && RankedBy(counts, order, s)
    requires forall i :: 0 <= i < |s| ==>
               if counts[w] >= counts[s[i]] then Precedes(counts, order, w, s[i])
               else Precedes(counts, order, s[i], w)
    ensures RankedBy(counts, order, Insert(counts, w, s))
  {
    if s == [] {
    } else if counts[w] >= counts[s[0]] {
      var r := [w] + s;
      forall i, j | 0 <= i < j < |r| ensures Precedes(counts, order, r[i], r[j]) {
        if i == 0 {
          if j > 1 {
            assert Precedes(counts, order, s[0], s[j - 1]);
          }
        } else {
          assert r[i] == s[i - 1] && r[j] == s[j - 1];
        }
      }
    } else {
      var tail := s[1..];
      InsertRanked(counts, order, w, tail);
      var r' := Insert(counts, w, tail);
      var r := [s[0]] + r';
      forall i, j | 0 <= i < j < |r| ensures Precedes(counts, order, r[i], r[j]) {
        if i == 0 {
          assert r[j] == r'[j - 1] && r[j] in multiset(r');
          if r[j] != w {
            assert r[j] in multiset(tail);
            var k :| 0 <= k < |tail| && tail[k] == r[j];
            assert s[k + 1] == r[j];
          }
        } else {
          assert r[i] == r'[i - 1] && r[j] == r'[j - 1];
        }
      }
    }
  }

  /** Lifting a ranking of `rest` to `[w] + rest`: positions shift by one. */
  lemma RankedCons(counts: map<Word, nat>, w: Word, rest: seq<Word>, s: seq<Word>)
    requires Distinct([w] + rest) && RankedBy(counts, rest, s)
    ensures RankedBy(counts, [w] + rest, s)
  {
  }

  /** Sorting a list of distinct words ranks them by count, ties in list order. */
  lemma {:induction false} SortRanked(counts: map<Word, nat>, ws: seq<Word>)
    requires Distinct(ws) && forall i :: 0 <= i < |ws| ==> ws[i] in counts
    ensures RankedBy(counts, ws, SortByCount(counts, ws))
  {
    if ws != [] {
      var w, rest := ws[0], ws[1..];
      assert ws == [w] + rest;
      SortRanked(counts, rest);
      var s := SortByCount(counts, rest);
      RankedCons(counts, w, rest, s);
      assert IndexOf(ws, w) == 0;
      forall i | 0 <= i < |s|
        ensures if counts[w] >= counts[s[i]] then Precedes(counts, ws, w, s[i])
                else Precedes(counts, ws, s[i], w)
      {
        assert s[i] in multiset(rest);
        assert s[i] != w;
      }
      InsertRanked(counts, ws, w, s);
    }
  }

  lemma {:induction false} DistinctCardinality(s: seq<Word>)
    requires Distinct(s)
    ensures |set x | x in s| == |s|
  {
    if s != [] {
      DistinctCardinality(s[1..]);
      assert (set x | x in s) == {s[0]} + (set x | x in s[1..]);
    }
  }

  function Min(a: nat, b: nat): nat {
    if a <= b then a else b
  }

  /** The words of a common-words answer. */
  function Words(r: seq<Entry>): (ws: seq<Word>)
    ensures |ws| == |r| && forall i :: 0 <= i < |r| ==> ws[i] == r[i].word
  {
    seq(|r|, i requires 0 <= i < |r| => r[i].word)
  }

  /** `most_common(n)` turned into `{word, frequency}` records: at most `n`
      distinct recorded words with their counts, highest count first,
      equal counts in first-recorded order, and no word left out outranks
      one that is listed. */
  function TopN(t: Table, n: nat): (r: seq<Entry>)
    requires WellFormed(t)
    ensures |r| == Min(n, |t.counts|)
    ensures forall i :: 0 <= i < |r| ==>
              r[i].word in t.counts && r[i].word in t.order && r[i].frequency == t.counts[r[i].word]
    ensures Distinct(Words(r))
    ensures forall i, j :: 0 <= i < j < |r| ==> r[i].frequency >= r[j].frequency
    ensures forall i, j :: 0 <= i < j < |r| && r[i].frequency == r[j].frequency ==>
              IndexOf(t.order, r[i].word) < IndexOf(t.order, r[j].word)
    ensures forall w :: w in t.counts && w !in Words(r) ==>
              forall i :: 0 <= i < |r| ==> Precedes(t.counts, t.order, r[i].word, w)
    ensures forall w :: w in t.counts && w !in Words(r) && |r| > 0 ==> t.counts[w] <= r[|r| - 1].frequency
  {
    var ranked := SortByCount(t.counts, t.order);
    SortedTable(t);
    var k := Min(n, |ranked|);
    RankedPrefix(t.counts, t.order, ranked, k);
    EntriesRanked(t.counts, t.order, ranked[..k]);
    Entries(t.counts, ranked[..k])
  }

  /** The records of a ranking list each word once with its count, in
      non-increasing count order, equal counts in `order`. */
  lemma EntriesRanked(counts: map<Word, nat>, order: seq<Word>, ws: seq<Word>)
    requires RankedBy(counts, order, ws)
    ensures var r := Entries(counts, ws);
            && (forall i :: 0 <= i < |r| ==>
                  r[i].word in counts && r[i].word in order && r[i].frequency == counts[r[i].word])
            && (forall i, j :: 0 <= i < j < |r| ==> r[i].frequency >= r[j].frequency)
            && (forall i, j :: 0 <= i < j < |r| && r[i].frequency == r[j].frequency ==>
                  IndexOf(order, r[i].word) < IndexOf(order, r[j].word))
  {
  }

  /** The records `{word, frequency}` for the words `ws`. */
  function Entries(counts: map<Word, nat>, ws: seq<Word>): (r: seq<Entry>)
    requires forall i :: 0 <= i < |ws| ==> ws[i] in counts
    ensures Words(r) == ws
    ensures forall i :: 0 <= i < |r| ==> r[i].frequency == counts[ws[i]]
  {
    seq(|ws|, i requires 0 <= i < |ws| => Entry(ws[i], counts[ws[i]]))
  }

  /** A prefix of a ranking is a ranking, has no repeated word, and every
      word after it ranks below every word in it. */
  lemma RankedPrefix(counts: map<Word, nat>, order: seq<Word>, s: seq<Word>, k: nat)
    requires RankedBy(counts, order, s) && k <= |s|
    ensures RankedBy(counts, order, s[..k])
    ensures Distinct(s[..k])
    ensures forall w :: w in s && w !in s[..k] ==>
              forall i :: 0 <= i < k ==> Precedes(counts, order, s[i], w)
  {
  }

  /** The sorted table is a ranking of exactly the recorded words. */
  lemma SortedTable(t: Table)
    requires WellFormed(t)
    ensures |SortByCount(t.counts, t.order)| == |t.counts|
    ensures RankedBy(t.counts, t.order, SortByCount(t.counts, t.order))
    ensures forall w :: w in t.counts ==> w in SortByCount(t.counts, t.order)
  {
    var ranked := SortByCount(t.counts, t.order);
    SortRanked(t.counts, t.order);
    DistinctCardinality(t.order);
    assert t.counts.Keys == set x | x in t.order;
    assert |ranked| == |multiset(t.order)| == |t.order|;
    assert forall w :: w in t.counts ==> w in multiset(ranked);
  }

  /** After recording `ws`, the common-words answer lists each word with the
      number of times it was recorded, most recorded first, equal counts in
      the order the words were first recorded. */
  lemma TopNAfterReplay(ws: seq<Word>, n: nat)
    ensures WellFormed(Replay(ws))
    ensures var r := TopN(Replay(ws), n);
            && |r| == Min(n, |set w | w in ws|)
            && (forall i :: 0 <= i < |r| ==> r[i].word in ws && r[i].frequency == multiset(ws)[r[i].word])
            && (forall i, j :: 0 <= i < j < |r| && r[i].frequency == r[j].frequency ==>
                  IndexOf(ws, r[i].word) < IndexOf(ws, r[j].word))
  {
    ReplayWellFormed(ws);
    ReplayCounts(ws);
    ReplayOrder(ws);
    var t := Replay(ws);
    var r := TopN(t, n);
    assert t.counts.Keys == set w | w in ws;
    forall i | 0 <= i < |r| ensures r[i].frequency == multiset(ws)[r[i].word] {
      assert CountOf(t, r[i].word) == t.counts[r[i].word];
    }
    forall i, j | 0 <= i < j < |r| && r[i].frequency == r[j].frequency
      ensures IndexOf(ws, r[i].word) < IndexOf(ws, r[j].word)
    {
      var a, b := IndexOf(t.order, r[i].word), IndexOf(t.order, r[j].word);
      assert t.order[a] == r[i].word && t.order[b] == r[j].word;
    }
  }

  /** Serving the same word twice makes it the single most common word, with frequency 2. */
  lemma SameWordTwice(w: Word)
    ensures WellFormed(Replay([w, w]))
    ensures TopN(Replay([w, w]), 1) == [Entry(w, 2)]
  {
    TopNAfterReplay([w, w], 1);
    assert (set x | x in [w, w]) == {w};
    assert multiset([w, w])[w] == 2;
  }
}
