/** The term record: a map from term label to that term's entry, and the three
    pure map updates the form's handlers compute (spread-copy plus append,
    spread-copy plus overwrite, copy then delete). */
module TermRecords {
  import opened Catalog

  /** A term's entry: the grades added so far, or the off-term sentinel (the
      string "Off-Term" in the record sent to the scoring service). */
  datatype TermValue = Graded(grades: seq<string>) | OffTerm

  type TermMap = map<string, TermValue>

  /** Spreading a string into an array (`[...s]`): one string per
      character, in order. */
  function Spread(s: string): seq<string>
  {
    seq(|s|, i requires 0 <= i < |s| => [s[i]])
  }

  /** The strings of `ss` concatenated in order. */
  function Join(ss: seq<string>): string
  {
    if ss == [] then "" else Join(ss[..|ss| - 1]) + ss[|ss| - 1]
  }

  /** Spreading loses nothing: every piece is one character long, and joining
      the pieces gives the string back. */
  lemma {:induction false} JoinSpread(s: string)
    ensures forall i :: 0 <= i < |Spread(s)| ==> |Spread(s)[i]| == 1
    ensures Join(Spread(s)) == s
  {
    if s != [] {
      var init := s[..|s| - 1];
      JoinSpread(init);
      assert Spread(s)[..|s| - 1] == Spread(init);
      assert s == init + [s[|s| - 1]];
    }
  }

  /** The array `[...(prevTerms[t] || [])]`: nothing for an absent term, the
      grade list for a graded term, and the spread of the sentinel string
      for an off-term. */
  function PriorEntries(terms: TermMap, t: string): (r: seq<string>)
    ensures t !in terms ==> r == []
    ensures t in terms && terms[t].Graded? ==> r == terms[t].grades
    ensures t in terms && terms[t] == OffTerm ==> r == ["O", "f", "f", "-", "T", "e", "r", "m"]
  {
    if t !in terms then []
    else match terms[t]
      case Graded(gs) => gs
      case OffTerm => Spread(OffTermText)
  }

  /** The record after adding grade `g` to term `t`: the term now holds a
      list, never an empty one, ending in `g`. */
  function WithGrade(terms: TermMap, t: string, g: string): (r: TermMap)
    ensures r.Keys == terms.Keys + {t}
    ensures forall k :: k in terms && k != t ==> r[k] == terms[k]
    ensures r[t].Graded? && |r[t].grades| == |PriorEntries(terms, t)| + 1
    ensures r[t].grades[|r[t].grades| - 1] == g
  {
    terms[t := Graded(PriorEntries(terms, t) + [g])]
  }

  /** The record after marking term `t` as off-term. */
  function WithOffTerm(terms: TermMap, t: string): (r: TermMap)
    ensures r.Keys == terms.Keys + {t}
    ensures forall k :: k in terms && k != t ==> r[k] == terms[k]
    ensures r[t] == OffTerm
  {
    terms[t := OffTerm]
  }

  /** The record after clearing term `t`. */
  function WithoutTerm(terms: TermMap, t: string): (r: TermMap)
    ensures r.Keys == terms.Keys - {t}
    ensures forall k :: k in r ==> r[k] == terms[k]
  {
    map k | k in terms && k != t :: terms[k]
  }

  // ---------------------------------------------------------------------
  // The invariant every reachable record keeps

  /** Every element of `l` is a catalogue grade. */
  ghost predicate AllGrades(l: seq<string>)
  {
    forall i :: 0 <= i < |l| ==> IsGrade(l[i])
  }

  /** A grade list that the handlers can produce: never empty, and either
      grades only, or the eight characters of the spread sentinel followed by
      grades (a grade added to an off-term). */
  ghost predicate ReachableEntries(l: seq<string>)
  {
    var n := |OffTermText|;
    && |l| > 0
    && (|| AllGrades(l)
        || (|l| > n && l[..n] == Spread(OffTermText) && AllGrades(l[n..])))
  }

  /** Only catalogue terms are keys, and every graded entry is reachable (so
      in particular no term holds an empty list). */
  ghost predicate WellFormed(terms: TermMap)
  {
    && (forall t :: t in terms ==> IsTerm(t))
    && (forall t :: t in terms && terms[t].Graded? ==> ReachableEntries(terms[t].grades))
  }

  lemma EmptyIsWellFormed()
    ensures WellFormed(map[])
  {
  }

  /** The spread sentinel is eight one-character strings, none of them a
      grade. */
  lemma SpreadSentinel()
    ensures Spread(OffTermText) == ["O", "f", "f", "-", "T", "e", "r", "m"]
    ensures forall i :: 0 <= i < |OffTermText| ==> !IsGrade(Spread(OffTermText)[i])
  {
  }

  /** Adding a catalogue grade to a catalogue term keeps the record
      well-formed, whatever the term held before. */
  lemma WithGradePreserves(terms: TermMap, t: string, g: string)
    requires WellFormed(terms) && IsTerm(t) && IsGrade(g)
    ensures WellFormed(WithGrade(terms, t, g))
  {
  }

  lemma WithOffTermPreserves(terms: TermMap, t: string)
    requires WellFormed(terms) && IsTerm(t)
    ensures WellFormed(WithOffTerm(terms, t))
  {
  }

  lemma WithoutTermPreserves(terms: TermMap, t: string)
    requires WellFormed(terms)
    ensures WellFormed(WithoutTerm(terms, t))
  {
  }

  // ---------------------------------------------------------------------
  // Properties of the individual updates

  /** Adding a grade to an absent term creates a one-element list; adding it
      to a graded term appends it after the earlier grades, in order. */
  lemma WithGradeAppends(terms: TermMap, t: string, g: string)
    ensures t !in terms ==> WithGrade(terms, t, g)[t] == Graded([g])
    ensures t in terms && terms[t].Graded? ==>
              WithGrade(terms, t, g)[t] == Graded(terms[t].grades + [g])
  {
  }

  /** What a later add-grade on the same term builds on: the earlier
      entries followed by the grade just added. */
  lemma PriorEntriesAfterGrade(terms: TermMap, t: string, g: string)
    ensures PriorEntries(WithGrade(terms, t, g), t) == PriorEntries(terms, t) + [g]
  {
  }

  /** Adding a grade to an off-term spreads the sentinel: the list becomes
      the eight characters of "Off-Term" followed by the grade, and its first
      element is not a grade. */
  lemma WithGradeOnOffTerm(terms: TermMap, t: string, g: string)
    requires t in terms && terms[t] == OffTerm
    ensures WithGrade(terms, t, g)[t] == Graded(["O", "f", "f", "-", "T", "e", "r", "m", g])
    ensures !IsGrade(WithGrade(terms, t, g)[t].grades[0])
  {
  }

  /** "Grades only" is not an invariant of the record: marking a term off and
      then adding a grade leaves a non-grade in its list. */
  lemma GradesOnlyIsNotInvariant()
    ensures var r := WithGrade(WithOffTerm(map[], "Freshman Fall"), "Freshman Fall", "A");
            WellFormed(r) && !AllGrades(r["Freshman Fall"].grades)
  {
    var m := WithOffTerm(map[], "Freshman Fall");
    EmptyIsWellFormed();
    WithOffTermPreserves(map[], "Freshman Fall");
    WithGradePreserves(m, "Freshman Fall", "A");
    WithGradeOnOffTerm(m, "Freshman Fall", "A");
  }

  /** Marking off-term forgets the term's prior value (absent, graded or
      already off-term), so it is idempotent. */
  lemma WithOffTermForgetsPrior(terms: TermMap, t: string, v: TermValue)
    ensures WithOffTerm(terms[t := v], t) == WithOffTerm(terms, t)
    ensures WithOffTerm(WithoutTerm(terms, t), t) == WithOffTerm(terms, t)
    ensures WithOffTerm(WithOffTerm(terms, t), t) == WithOffTerm(terms, t)
  {
  }

  /** Clearing an absent term changes nothing, so clearing is idempotent; it
      also forgets the term's prior value. */
  lemma WithoutTermForgetsPrior(terms: TermMap, t: string, v: TermValue)
    ensures t !in terms ==> WithoutTerm(terms, t) == terms
    ensures WithoutTerm(WithoutTerm(terms, t), t) == WithoutTerm(terms, t)
    ensures WithoutTerm(terms[t := v], t) == WithoutTerm(terms, t)
  {
  }

  // ---------------------------------------------------------------------
  // A sequence of add-grade actions on one term

  /** The record after adding the grades `gs` to term `t`, one after the
      other. */
  function WithGrades(terms: TermMap, t: string, gs: seq<string>): TermMap
    decreases |gs|
  {
    if gs == [] then terms else WithGrades(WithGrade(terms, t, gs[0]), t, gs[1..])
  }

  /** Grades added one by one end up in insertion order after the term's
      earlier entries. */
  lemma {:induction false} WithGradesInOrder(terms: TermMap, t: string, gs: seq<string>)
    requires gs != []
    ensures t in WithGrades(terms, t, gs)
    ensures WithGrades(terms, t, gs)[t] == Graded(PriorEntries(terms, t) + gs)
    decreases |gs|
  {
    var next, rest := WithGrade(terms, t, gs[0]), gs[1..];
    if rest == [] {
      assert gs == [gs[0]];
    } else {
      WithGradesInOrder(next, t, rest);
      PriorEntriesAfterGrade(terms, t, gs[0]);
      assert gs == [gs[0]] + rest;
      assert (PriorEntries(terms, t) + [gs[0]]) + rest == PriorEntries(terms, t) + gs;
    }
  }

  /** Adding grades to one term adds that term as a key and leaves every other
      term as it was. */
  lemma {:induction false} WithGradesFrame(terms: TermMap, t: string, gs: seq<string>)
    requires gs != []
    ensures WithGrades(terms, t, gs).Keys == terms.Keys + {t}
    ensures forall k :: k in terms && k != t ==> WithGrades(terms, t, gs)[k] == terms[k]
    decreases |gs|
  {
    var next := WithGrade(terms, t, gs[0]);
    if gs[1..] != [] {
      WithGradesFrame(next, t, gs[1..]);
    }
  }

  /** Adding "B+" then "A-" to an empty term yields exactly ["B+", "A-"]. */
  lemma TwoGradesExample(terms: TermMap, t: string)
    requires t !in terms
    ensures WithGrade(WithGrade(terms, t, "B+"), t, "A-")[t] == Graded(["B+", "A-"])
  {
  }
}
