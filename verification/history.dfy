/** The calculation history: the ten most recent calculations, newest
    first, which the history view narrows by calculator type and by a
    search term. */
module History {
  import opened JsNumber
  import opened Calculation

  /** `id` is the clock reading `Date.now()` at the time of recording and
      `date` the timestamp as the view prints it (`toLocaleDateString`);
      both are supplied by the caller. */
  datatype Entry = Entry(id: int, date: string, result: CalcResult)

  /** The `filterType` select: every entry, or one calculator type. */
  datatype TypeFilter = All | Only(kind: Kind)

  const Capacity := 10

  /** `[entry, ...history.slice(0, 9)]`. */
  function Record(h: seq<Entry>, e: Entry): (r: seq<Entry>)
    ensures |r| == Min(|h| + 1, Capacity)
    ensures r[0] == e
    ensures forall i :: 1 <= i < |r| ==> r[i] == h[i - 1]
  {
    [e] + h[..Min(|h|, Capacity - 1)]
  }

  /** The first `Capacity` elements of `s`, or all of it when shorter. */
  function Newest(s: seq<Entry>): (r: seq<Entry>)
    ensures |r| == Min(|s|, Capacity) && r <= s
    ensures |s| <= Capacity ==> r == s
  {
    s[..Min(|s|, Capacity)]
  }

  function Reverse(s: seq<Entry>): (r: seq<Entry>)
    ensures |r| == |s|
    ensures forall i :: 0 <= i < |s| ==> r[i] == s[|s| - 1 - i]
  {
    if s == [] then [] else Reverse(s[1..]) + [s[0]]
  }

  /** Record each calculation of `es` in turn, the first one first. */
  function RecordAll(h: seq<Entry>, es: seq<Entry>): seq<Entry>
    decreases |es|
  {
    if es == [] then h else RecordAll(Record(h, es[0]), es[1..])
  }

  /** `getTypeLabel`: the label the view shows and searches. */
  function TypeLabel(k: Kind): (name: string)
    ensures 4 <= |name| <= 6
    ensures forall i :: 0 <= i < |name| ==> '가' <= name[i] <= '힣'
  {
    match k
    case AnnualLeaveKind => "연차계산"
    case SeveranceKind => "퇴직금계산"
    case OvertimeKind => "야근수당계산"
  }

  /** `text.includes(term)`: `term` starts at some position of `text`. */
  predicate Contains(text: string, term: string)
    ensures term <= text ==> Contains(text, term)
    ensures Contains(text, term) ==> |term| <= |text|
    decreases |text|
  {
    term <= text || (|text| > 0 && Contains(text[1..], term))
  }

  /** `term` occurs in `text` starting at index `i`. */
  predicate OccursAt(text: string, term: string, i: int)
  {
    0 <= i && i + |term| <= |text| && text[i..i + |term|] == term
  }

  /** The search box: an empty term matches everything; otherwise the term
      must occur in the entry's type label or in its printed date. */
  predicate MatchesSearch(e: Entry, term: string)
    ensures term == "" ==> MatchesSearch(e, term)
    ensures term <= TypeLabel(e.result.KindOf()) || term <= e.date ==> MatchesSearch(e, term)
    ensures MatchesSearch(e, term) ==> |term| <= |TypeLabel(e.result.KindOf())| || |term| <= |e.date|
  {
    term == "" || Contains(TypeLabel(e.result.KindOf()), term) || Contains(e.date, term)
  }

  /** The type select: `All` lets every entry through, `Only(k)` the
      entries of calculator `k`. */
  predicate MatchesType(e: Entry, f: TypeFilter)
    ensures f.All? ==> MatchesType(e, f)
    ensures f == Only(AnnualLeaveKind) ==> (MatchesType(e, f) <==> e.result.LeaveCalc?)
    ensures f == Only(SeveranceKind) ==> (MatchesType(e, f) <==> e.result.SeveranceCalc?)
    ensures f == Only(OvertimeKind) ==> (MatchesType(e, f) <==> e.result.OvertimeCalc?)
  {
    f.All? || e.result.KindOf() == f.kind
  }

  /** An entry stays in the view when it passes both the search and the
      type filter. */
  predicate Keep(e: Entry, term: string, f: TypeFilter)
    ensures term == "" && f.All? ==> Keep(e, term, f)
    ensures f.All? ==> (Keep(e, term, f) <==> MatchesSearch(e, term))
    ensures term == "" ==> (Keep(e, term, f) <==> MatchesType(e, f))
  {
    MatchesSearch(e, term) && MatchesType(e, f)
  }

  /** `a` is `b` with some elements left out, the rest in their order. */
  predicate IsSubsequence(a: seq<Entry>, b: seq<Entry>)
    decreases |b|
  {
    a == [] || (b != [] && ((a[0] == b[0] && IsSubsequence(a[1..], b[1..])) || IsSubsequence(a, b[1..])))
  }

  /** `calculationHistory.filter(matchesSearch && matchesFilter)`. */
  function Filtered(h: seq<Entry>, term: string, f: TypeFilter): (r: seq<Entry>)
    ensures forall e :: e in r <==> e in h && Keep(e, term, f)
    ensures forall e :: multiset(r)[e] == if Keep(e, term, f) then multiset(h)[e] else 0
    ensures f.Only? ==> forall e :: e in r ==> e.result.KindOf() == f.kind
    ensures IsSubsequence(r, h)
    ensures |r| <= |h|
  {
    if h == [] then []
    else
      var rest := Filtered(h[1..], term, f);
      assert multiset(h) == multiset{h[0]} + multiset(h[1..]) by { assert h == [h[0]] + h[1..]; }
      if Keep(h[0], term, f) then
        assert multiset([h[0]] + rest) == multiset{h[0]} + multiset(rest);
        [h[0]] + rest
      else rest
  }

  /** `filteredHistory.slice(0, 10)`, the list the view renders. */
  function View(h: seq<Entry>, term: string, f: TypeFilter): (r: seq<Entry>)
    ensures |h| <= Capacity ==> r == Filtered(h, term, f)
  {
    Newest(Filtered(h, term, f))
  }

  // ---------------------------------------------------------------------
  // Properties

  /** With every type selected and no search term the view lists the whole
      history. */
  lemma {:induction false} FilterAllIsIdentity(h: seq<Entry>)
    ensures Filtered(h, "", All) == h
  {
    if h != [] {
      assert Keep(h[0], "", All);
      calc {
        Filtered(h, "", All);
        [h[0]] + Filtered(h[1..], "", All);
        { FilterAllIsIdentity(h[1..]); }
        [h[0]] + h[1..];
        h;
      }
    }
  }

  /** Recording is keeping the newest `Capacity` of the new entry followed
      by the old history. */
  lemma RecordIsNewest(h: seq<Entry>, e: Entry)
    ensures Record(h, e) == Newest([e] + h)
  {
  }

  lemma NewestAbsorbs(a: seq<Entry>, b: seq<Entry>)
    ensures Newest(a + Newest(b)) == Newest(a + b)
  {
    var x, y := a + Newest(b), a + b;
    var n := Min(|y|, Capacity);
    assert Min(|x|, Capacity) == n;
    forall i | 0 <= i < n ensures x[i] == y[i] {
      if i >= |a| {
        assert x[i] == Newest(b)[i - |a|];
      }
    }
  }

  /** After any sequence of recordings the history holds the newest
      `Capacity` of the calculations, latest first, followed by what was
      there before (a history that starts over-full is cut down by the first
      recording): so it never grows beyond `Capacity` and the latest recording
      is always at index 0. */
  lemma {:induction false} RecordAllKeepsNewest(h: seq<Entry>, es: seq<Entry>)
    requires es != [] || |h| <= Capacity
    ensures RecordAll(h, es) == Newest(Reverse(es) + h)
    decreases |es|
  {
    if es != [] {
      var e, rest := es[0], es[1..];
      calc {
        RecordAll(h, es);
        RecordAll(Record(h, e), rest);
        { RecordAllKeepsNewest(Record(h, e), rest); }
        Newest(Reverse(rest) + Record(h, e));
        { RecordIsNewest(h, e); }
        Newest(Reverse(rest) + Newest([e] + h));
        { NewestAbsorbs(Reverse(rest), [e] + h); }
        Newest(Reverse(rest) + ([e] + h));
        { assert Reverse(rest) + ([e] + h) == (Reverse(rest) + [e]) + h; }
        Newest(Reverse(es) + h);
      }
    }
  }

  /** The consequences for a caller: bounded size, newest first. */
  lemma RecordAllBounded(h: seq<Entry>, es: seq<Entry>)
    requires es != []
    ensures 0 < |RecordAll(h, es)| <= Capacity
    ensures RecordAll(h, es)[0] == es[|es| - 1]
  {
    RecordAllKeepsNewest(h, es);
  }

  /** The search finds a substring wherever it starts: `Contains` holds
      exactly when the term occurs at some index of the text. */
  lemma ContainsOccurs(text: string, term: string)
    ensures Contains(text, term) <==> exists i :: OccursAt(text, term, i)
  {
    if Contains(text, term) {
      var i := ContainsWitness(text, term);
    }
    if exists i :: OccursAt(text, term, i) {
      var i :| OccursAt(text, term, i);
      OccursContains(text, term, i);
    }
  }

  /** An index where a contained term occurs. */
  lemma {:induction false} ContainsWitness(text: string, term: string) returns (i: int)
    requires Contains(text, term)
    ensures OccursAt(text, term, i)
    decreases |text|
  {
    if term <= text {
      i := 0;
    } else {
      var j := ContainsWitness(text[1..], term);
      DropOneSlice(text, j, |term|);
      i := j + 1;
    }
  }

  /** A term that occurs at some index is contained. */
  lemma {:induction false} OccursContains(text: string, term: string, i: int)
    requires OccursAt(text, term, i)
    ensures Contains(text, term)
    decreases i
  {
    if i > 0 {
      DropOneSlice(text, i - 1, |term|);
      OccursContains(text[1..], term, i - 1);
    }
  }

  /** The search box is substring search: a non-empty term matches an
      entry exactly when it occurs in the entry's type label or its date. */
  lemma SearchIsSubstring(e: Entry, term: string)
    ensures MatchesSearch(e, term) <==>
              (term == ""
               || (exists i :: OccursAt(TypeLabel(e.result.KindOf()), term, i))
               || (exists i :: OccursAt(e.date, term, i)))
  {
    ContainsOccurs(TypeLabel(e.result.KindOf()), term);
    ContainsOccurs(e.date, term);
  }

  lemma DropOneSlice(text: string, j: int, n: int)
    requires 0 <= j && 0 <= n && j + 1 + n <= |text|
    ensures text[1..][j..j + n] == text[j + 1..j + 1 + n]
  {
  }

  /** The three type labels are distinct, so searching for the full label of
      one calculator never matches the label of another. */
  lemma LabelSearchSeparatesKinds(e: Entry, k: Kind)
    requires k != e.result.KindOf()
    ensures MatchesSearch(e, TypeLabel(k)) <==> Contains(e.date, TypeLabel(k))
  {
    var a, b := TypeLabel(e.result.KindOf()), TypeLabel(k);
    ContainsOccurs(a, b);
    assert forall i :: OccursAt(a, b, i) ==> a[i] == b[0];
  }

  /** The calculators record against the history as it stood when the
      button was pressed (`seen`), not as it stands when the result arrives
      after the artificial delay. If the history was emptied in between,
      the recording brings the old entries back behind the new one. */
  lemma StaleRecordUndoesClear(seen: seq<Entry>, e: Entry)
    requires seen != []
    ensures Record(seen, e)[1] == seen[0]
    ensures Record(seen, e)[1..] == Newest(seen)[..Min(|seen|, Capacity - 1)]
    ensures Record(seen, e) != Record([], e)
  {
    assert |Record(seen, e)| >= 2;
  }

  /** Two calculations that were both started from the same history: the
      second recording overwrites the first, whose entry is lost. */
  lemma StaleRecordLosesEarlier(seen: seq<Entry>, e1: Entry, e2: Entry)
    requires e1 != e2 && e1 !in seen
    ensures e1 !in Record(seen, e2)
    ensures e1 in Record(Record(seen, e1), e2)
  {
    assert Record(Record(seen, e1), e2)[1] == e1;
  }

  /** The store the history view reads and the calculators write. */
  class HistoryStore {
    var entries: seq<Entry>

    ghost predicate Valid()
      reads this
    {
      |entries| <= Capacity
    }

    constructor ()
      ensures Valid() && entries == []
    {
      entries := [];
    }

    /** `addToHistory`: stamp the calculation and put it first, in front of
        `seen`, the history the calling handler captured when its button was
        pressed. When nothing changed the history during the handler's wait,
        `seen` is `entries`. */
    method Add(seen: seq<Entry>, now: int, date: string, result: CalcResult)
      modifies this
      ensures Valid()
      ensures entries == Record(seen, Entry(now, date, result))
    {
      entries := [Entry(now, date, result)] + seen[..Min(|seen|, Capacity - 1)];
    }

    /** The "delete all" button: `setCalculationHistory([])`. */
    method Clear()
      modifies this
      ensures Valid() && entries == []
    {
      entries := [];
    }

    /** What the history view shows for a search term and type filter. */
    function Shown(term: string, f: TypeFilter): (r: seq<Entry>)
      reads this
      requires Valid()
      ensures forall e :: e in r <==> e in entries && Keep(e, term, f)
      ensures forall e :: multiset(r)[e] == if Keep(e, term, f) then multiset(entries)[e] else 0
      ensures IsSubsequence(r, entries)
    {
      View(entries, term, f)
    }
  }
}
