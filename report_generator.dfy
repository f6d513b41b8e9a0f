/** The sectioned-report parser of the interview report generator: the
    free-text reply of the language model is cut into ten fields by fixed
    headers.  The definitions are stated for any table of (field, header)
    pairs; `Sections` is the table the generator uses. */
module ReportGenerator {
  import opened Text
  import opened Optional

  /** Placeholder stored for a field whose header is missing. */
  const NotProvided: string := "Not provided"

  /** The (field, header) table, in the dictionary's insertion order. */
  const Sections: seq<(string, string)> := [
    ("confidence", "CONFIDENCE:"),
    ("clarity", "CLARITY:"),
    ("ques_count", "QUESTION COUNT:"),
    ("correct_ans_count", "CORRECT ANSWERS:"),
    ("wrong_ans_count", "INCORRECT ANSWERS:"),
    ("tech_knowledge", "TECHNICAL KNOWLEDGE:"),
    ("overall_fit", "OVERALL FIT:"),
    ("what_went_well", "WHAT WENT WELL:"),
    ("area_to_improve", "AREAS TO IMPROVE:"),
    ("ai_feedback", "AI FEEDBACK:")
  ]

  /** The headers of a table, in table order. */
  function HeadersOf(table: seq<(string, string)>): (hs: seq<string>)
    ensures |hs| == |table| && forall i :: 0 <= i < |table| ==> hs[i] == table[i].1
  {
    if table == [] then [] else [table[0].1] + HeadersOf(table[1..])
  }

  /** The fields of a table, in table order. */
  function FieldsOf(table: seq<(string, string)>): (ks: seq<string>)
    ensures |ks| == |table| && forall i :: 0 <= i < |table| ==> ks[i] == table[i].0
  {
    if table == [] then [] else [table[0].0] + FieldsOf(table[1..])
  }

  /** The fields of a table, as a set. */
  function KeysOf(table: seq<(string, string)>): set<string> {
    set p | p in table :: p.0
  }

  const Headers: seq<string> := HeadersOf(Sections)
  const ReportKeys: set<string> := KeysOf(Sections)

  /** One of `headers` occurs in `text` at index `j`. */
  predicate HeaderAt(text: string, j: int, headers: seq<string>) {
    exists h | h in headers :: OccursAt(text, h, j)
  }

  /** Where a section that starts at `from` ends: the least index at or
      after `from` at which one of `headers` occurs, or the end of text. */
  function Boundary(text: string, from: nat, headers: seq<string>): (e: nat)
    requires from <= |text|
    ensures from <= e <= |text|
    ensures forall j :: from <= j < e ==> !HeaderAt(text, j, headers)
    ensures e < |text| ==> HeaderAt(text, e, headers)
    decreases |text| - from
  {
    if from == |text| then |text|
    else if HeaderAt(text, from, headers) then from
    else Boundary(text, from + 1, headers)
  }

  /** Index just past the first occurrence of `header`. */
  function SectionStart(text: string, header: string): int {
    Find(text, header, 0) + |header|
  }

  /** The raw slice of the section introduced by `header`, or None when
      the header does not occur: it starts right after the header's first
      occurrence and ends at the boundary that follows. */
  function RawSection(text: string, header: string, headers: seq<string>): (r: Option<string>)
    ensures r.None? <==> Find(text, header, 0) == -1
    ensures r.Some? ==> 0 <= SectionStart(text, header) <= |text|
    ensures r.Some? ==> r.value == text[SectionStart(text, header)..Boundary(text, SectionStart(text, header), headers)]
  {
    var i := Find(text, header, 0);
    if i == -1 then None
    else
      var s := i + |header|;
      Some(text[s..Boundary(text, s, headers)])
  }

  /** Cleaning applied to a raw slice: strip, remove every `**`, then
      collapse each run of three or more newlines to two. */
  function CleanSection(raw: string): (v: string)
    ensures !Contains(v, "**") && !Contains(v, "\n\n\n")
  {
    var unbolded := Replace(Strip(raw), "**", "");
    var v := CollapseNewlines(unbolded);
    RepeatLiterals();
    RemoveRunIsRunFree(Strip(raw), '*', 2);
    CollapseKeepsRunFree(unbolded, '*', 2);
    RunFreeExcludesRepeat(v, '*', 2);
    CollapseIsNewlineRunFree(unbolded);
    RunFreeExcludesRepeat(v, '\n', 3);
    v
  }

  /** The bold marker and the three-newline run as runs of one character. */
  lemma RepeatLiterals()
    ensures Repeat('*', 2) == "**" && Repeat('\n', 3) == "\n\n\n"
  {
    assert Repeat('*', 2) == ['*'] + Repeat('*', 1);
    assert Repeat('\n', 3) == ['\n'] + Repeat('\n', 2);
    assert Repeat('\n', 2) == ['\n'] + Repeat('\n', 1);
  }

  /** The value stored for the field whose header is `header`: exactly the
      placeholder when the header is absent, the cleaned raw section
      otherwise. */
  function SectionValue(text: string, header: string, headers: seq<string>): (v: string)
    ensures !Contains(text, header) ==> v == NotProvided
  {
    match RawSection(text, header, headers)
    case None => NotProvided
    case Some(raw) =>
      FindContains(text, header);
      CleanSection(raw)
  }

  /** No two entries of a table name the same field. */
  predicate DistinctKeys(table: seq<(string, string)>) {
    forall i, j :: 0 <= i < j < |table| ==> table[i].0 != table[j].0
  }

  /** The report built by assigning `values[i]` to the field of `table[i]`
      in table order; a later entry overwrites an earlier one with the
      same field, so the last entry's value is kept. */
  function ReportOf(table: seq<(string, string)>, values: seq<string>): (r: map<string, string>)
    requires |values| == |table|
    ensures r.Keys == KeysOf(table)
    ensures table != [] ==> r[table[|table| - 1].0] == values[|table| - 1]
    decreases |table|
  {
    if table == [] then map[]
    else
      var n := |table| - 1;
      var prefix := table[..n];
      assert forall p :: p in table <==> p in prefix || p == table[n];
      ReportOf(prefix, values[..n])[table[n].0 := values[n]]
  }

  /** The last assignment to a field wins: a field holds the value of the
      last entry that names it. */
  lemma {:induction false} ReportOfLastWins(table: seq<(string, string)>, values: seq<string>, i: nat)
    requires |values| == |table| && i < |table|
    requires forall j | i < j < |table| :: table[j].0 != table[i].0
    ensures ReportOf(table, values)[table[i].0] == values[i]
    decreases |table|
  {
    var n := |table| - 1;
    if i < n {
      var prefix, vs := table[..n], values[..n];
      assert prefix[i] == table[i] && vs[i] == values[i];
      forall j | i < j < n ensures prefix[j].0 != prefix[i].0 {
        assert prefix[j] == table[j];
      }
      ReportOfLastWins(prefix, vs, i);
      ReportOfLast(table, values);
    }
  }

  /** With distinct fields, every field holds its own value. */
  lemma ReportOfDistinct(table: seq<(string, string)>, values: seq<string>)
    requires |values| == |table| && DistinctKeys(table)
    ensures forall i :: 0 <= i < |table| ==> ReportOf(table, values)[table[i].0] == values[i]
  {
    forall i | 0 <= i < |table| ensures ReportOf(table, values)[table[i].0] == values[i] {
      ReportOfLastWins(table, values, i);
    }
  }

  /** The report of a non-empty table is that of its prefix with the last
      entry assigned. */
  lemma ReportOfLast(table: seq<(string, string)>, values: seq<string>)
    requires |values| == |table| && table != []
    ensures ReportOf(table, values) ==
      ReportOf(table[..|table| - 1], values[..|table| - 1])[table[|table| - 1].0 := values[|table| - 1]]
  {
  }

  /** Assigning one more entry extends the report by that entry. */
  lemma ReportOfStep(table: seq<(string, string)>, values: seq<string>, n: nat)
    requires n < |table| == |values|
    ensures ReportOf(table[..n + 1], values[..n + 1]) == ReportOf(table[..n], values[..n])[table[n].0 := values[n]]
  {
    assert table[..n + 1][..n] == table[..n];
    assert values[..n + 1][..n] == values[..n];
  }

  /** The value of each section of a table, in table order. */
  function SectionValues(text: string, table: seq<(string, string)>, headers: seq<string>): (vs: seq<string>)
    ensures |vs| == |table|
    ensures forall i :: 0 <= i < |table| ==> vs[i] == SectionValue(text, table[i].1, headers)
  {
    if table == [] then []
    else [SectionValue(text, table[0].1, headers)] + SectionValues(text, table[1..], headers)
  }

  /** The report of the generator. */
  function ReportSpec(text: string): map<string, string> {
    ReportOf(Sections, SectionValues(text, Sections, Headers))
  }

  /** The generator's table names each field once and has no empty header. */
  lemma SectionsWellFormed()
    ensures DistinctKeys(Sections)
    ensures forall h | h in Headers :: h != []
  {
    SectionKeysDistinct();
    HeadersNonEmpty();
  }

  /** No field name appears twice in the table. */
  lemma SectionKeysDistinct()
    ensures DistinctKeys(Sections)
  {
  }

  /** No header is the empty string. */
  lemma HeadersNonEmpty()
    ensures forall h | h in Headers :: h != []
  {
    HeadersOfNonEmpty(Sections);
  }

  /** Non-empty headers in the table give non-empty headers in the list. */
  lemma HeadersOfNonEmpty(table: seq<(string, string)>)
    requires forall i | 0 <= i < |table| :: table[i].1 != []
    ensures forall h | h in HeadersOf(table) :: h != []
  {
    var hs := HeadersOf(table);
    forall h | h in hs ensures h != [] {
      var i :| 0 <= i < |hs| && hs[i] == h;
    }
  }

  /** The earliest `find` of any header at or after `from` is the boundary. */
  lemma EarliestFindIsBoundary(text: string, from: nat, headers: seq<string>, e: nat)
    requires from <= e <= |text|
    requires forall h | h in headers :: Find(text, h, from) == -1 || e <= Find(text, h, from)
    requires e == |text| || exists h | h in headers :: Find(text, h, from) == e
    ensures e == Boundary(text, from, headers)
  {
    var b := Boundary(text, from, headers);
    if b < |text| {
      var h :| h in headers && OccursAt(text, h, b);
      assert Find(text, h, from) != -1;
    }
    if e < |text| {
      var h :| h in headers && Find(text, h, from) == e;
      assert HeaderAt(text, e, headers);
    }
  }

  /** The nearest header at or after `start`: the least of the `find`s of
      all headers, or the end of the text when none of them is found. */
  method NearestHeader(text: string, start: nat, headers: seq<string>) returns (end: nat)
    requires start <= |text|
    ensures end == Boundary(text, start, headers)
  {
    end := |text|;
    for m := 0 to |headers|
      invariant start <= end <= |text|
      invariant forall l :: 0 <= l < m ==> Find(text, headers[l], start) == -1 || end <= Find(text, headers[l], start)
      invariant end == |text| || exists l :: 0 <= l < m && Find(text, headers[l], start) == end
    {
      var next := Find(text, headers[m], start);
      if next != -1 && next < end {
        end := next;
      }
    }
    EarliestFindIsBoundary(text, start, headers, end);
  }

  /** One iteration of the generator's loop: the value of the section that
      `header` introduces. */
  method ExtractSection(text: string, header: string, headers: seq<string>) returns (content: string)
    ensures content == SectionValue(text, header, headers)
  {
    var start := Find(text, header, 0);
    if start == -1 {
      return NotProvided;
    }
    start := start + |header|;
    var end := NearestHeader(text, start, headers);
    ghost var raw := text[start..end];
    assert RawSection(text, header, headers) == Some(raw);
    content := Strip(text[start..end]);
    content := Replace(content, "**", "");
    content := CollapseNewlines(content);
    assert content == CleanSection(raw);
  }

  /** Assigning the next section's value extends the report by one entry. */
  lemma SectionStep(text: string, table: seq<(string, string)>, headers: seq<string>, n: nat,
                    report: map<string, string>, content: string)
    requires n < |table|
    requires report == ReportOf(table[..n], SectionValues(text, table, headers)[..n])
    requires content == SectionValue(text, table[n].1, headers)
    ensures report[table[n].0 := content] ==
      ReportOf(table[..n + 1], SectionValues(text, table, headers)[..n + 1])
  {
    ReportOfStep(table, SectionValues(text, table, headers), n);
  }

  /** Fills the report field by field for a given table. */
  method ExtractSectionsOf(text: string, table: seq<(string, string)>) returns (report: map<string, string>)
    ensures report == ReportOf(table, SectionValues(text, table, HeadersOf(table)))
  {
    var headers := HeadersOf(table);
    ghost var values := SectionValues(text, table, headers);
    report := map[];
    for n := 0 to |table|
      invariant report == ReportOf(table[..n], values[..n])
    {
      var content := ExtractSection(text, table[n].1, headers);
      SectionStep(text, table, headers, n, report, content);
      report := report[table[n].0 := content];
    }
    assert table[..|table|] == table;
    assert values[..|table|] == values;
  }

  /** The generator's parser: the table above, applied to the reply. */
  method ExtractSections(text: string) returns (report: map<string, string>)
    ensures report == ReportSpec(text)
  {
    report := ExtractSectionsOf(text, Sections);
  }

  // ---------------------------------------------------------------------
  // Properties of the parser

  /** The report has exactly the ten fields of the table, and each holds
      the value of its own section, whatever the text. */
  lemma ReportFields(text: string)
    ensures ReportSpec(text).Keys == ReportKeys
    ensures forall i :: 0 <= i < |Sections| ==>
      ReportSpec(text)[Sections[i].0] == SectionValue(text, Sections[i].1, Headers)
  {
    SectionsWellFormed();
    ReportOfDistinct(Sections, SectionValues(text, Sections, Headers));
  }

  /** The raw slice of a present header contains none of the headers:
      it stops before the first one that follows. */
  lemma RawSectionExcludesHeaders(text: string, header: string, headers: seq<string>)
    requires forall h | h in headers :: h != []
    requires RawSection(text, header, headers).Some?
    ensures forall h | h in headers :: !Contains(RawSection(text, header, headers).value, h)
  {
    var raw := RawSection(text, header, headers).value;
    var s := SectionStart(text, header);
    var e := Boundary(text, s, headers);
    forall h, j | h in headers && 0 <= j <= |raw| - |h|
      ensures !OccursAt(raw, h, j)
    {
      SliceOfSlice(text, s, e, j, j + |h|);
      assert !HeaderAt(text, s + j, headers);
    }
  }

  /** The stored value of every field is free of `**` and of three
      consecutive newlines. */
  lemma StoredValueClean(text: string, header: string, headers: seq<string>)
    ensures !Contains(SectionValue(text, header, headers), "**")
    ensures !Contains(SectionValue(text, header, headers), "\n\n\n")
  {
    if RawSection(text, header, headers).None? {
      NoFirstCharNoMatch(NotProvided, "**");
      NoFirstCharNoMatch(NotProvided, "\n\n\n");
    }
  }

  /** A string none of whose characters is `pat[0]` does not contain `pat`. */
  lemma NoFirstCharNoMatch(s: string, pat: string)
    requires pat != [] && forall j :: 0 <= j < |s| ==> s[j] != pat[0]
    ensures !Contains(s, pat)
  {
    forall i | 0 <= i <= |s| - |pat|
      ensures !OccursAt(s, pat, i)
    {
      assert s[i..i + |pat|][0] == s[i];
    }
  }

  const Correct := "CORRECT ANSWERS:"
  const Incorrect := "INCORRECT ANSWERS:"

  /** A pattern that ends another pattern and occurs only as that ending
      is first found `d` characters after the other. */
  lemma FindAsSuffix(text: string, inner: string, outer: string, d: nat)
    requires d + |inner| == |outer| && outer[d..] == inner
    requires Contains(text, outer)
    requires forall j :: OccursAt(text, inner, j) ==> OccursAt(text, outer, j - d)
    ensures Find(text, inner, 0) == Find(text, outer, 0) + d
  {
    FindContains(text, outer);
    var i := Find(text, outer, 0);
    SuffixOccurs(text, inner, outer, d, i);
    NoEarlierSuffix(text, inner, outer, d, i);
    FindIsLeast(text, inner, 0, i + d);
  }

  /** Where `outer` occurs, its ending `inner` occurs `d` further on. */
  lemma SuffixOccurs(text: string, inner: string, outer: string, d: nat, i: int)
    requires d + |inner| == |outer| && outer[d..] == inner
    requires OccursAt(text, outer, i)
    ensures OccursAt(text, inner, i + d)
  {
    var o := text[i..i + |outer|];
    assert o[d..d + |inner|] == inner;
    OccursInInfix(text, o, i, inner, d);
  }

  /** Before the first `outer` plus `d` there is no `inner`. */
  lemma NoEarlierSuffix(text: string, inner: string, outer: string, d: nat, i: int)
    requires forall j :: OccursAt(text, inner, j) ==> OccursAt(text, outer, j - d)
    requires i == Find(text, outer, 0)
    ensures forall j | 0 <= j < i + d :: !OccursAt(text, inner, j)
  {
  }

  /** Such a header also reads the same section as the other. */
  lemma FoundAsSuffix(text: string, inner: string, outer: string, d: nat, headers: seq<string>)
    requires d + |inner| == |outer| && outer[d..] == inner
    requires Contains(text, outer)
    requires forall j :: OccursAt(text, inner, j) ==> OccursAt(text, outer, j - d)
    ensures Find(text, inner, 0) == Find(text, outer, 0) + d
    ensures SectionValue(text, inner, headers) == SectionValue(text, outer, headers)
  {
    FindAsSuffix(text, inner, outer, d);
    FindContains(text, outer);
    assert SectionStart(text, inner) == SectionStart(text, outer);
  }

  /** Headers are found by plain substring search, so when "CORRECT ANSWERS:"
      occurs only inside "INCORRECT ANSWERS:", the correct-answer count is
      read from the incorrect-answer section. */
  lemma CorrectFoundInsideIncorrect(text: string, headers: seq<string>)
    requires Contains(text, Incorrect)
    requires forall j :: OccursAt(text, Correct, j) ==> OccursAt(text, Incorrect, j - 2)
    ensures Find(text, Correct, 0) == Find(text, Incorrect, 0) + 2
    ensures SectionValue(text, Correct, headers) == SectionValue(text, Incorrect, headers)
  {
    FoundAsSuffix(text, Correct, Incorrect, 2, headers);
  }

  /** The boundary depends on which headers there are, not on the order
      in which the table lists them. */
  lemma {:induction false} BoundaryOrderFree(text: string, from: nat, hs1: seq<string>, hs2: seq<string>)
    requires from <= |text|
    requires forall h :: h in hs1 <==> h in hs2
    ensures Boundary(text, from, hs1) == Boundary(text, from, hs2)
    decreases |text| - from
  {
    if from < |text| {
      assert HeaderAt(text, from, hs1) == HeaderAt(text, from, hs2);
      if !HeaderAt(text, from, hs1) {
        BoundaryOrderFree(text, from + 1, hs1, hs2);
      }
    }
  }

  /** Hence a reordered table yields the same value for every field. */
  lemma SectionValueOrderFree(text: string, header: string, hs1: seq<string>, hs2: seq<string>)
    requires forall h :: h in hs1 <==> h in hs2
    ensures SectionValue(text, header, hs1) == SectionValue(text, header, hs2)
  {
    if Find(text, header, 0) != -1 {
      BoundaryOrderFree(text, SectionStart(text, header), hs1, hs2);
    }
  }
}
