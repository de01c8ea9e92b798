/**
 * The work-experience scanner of `extract_info`. Sentences are read in order;
 * the first one mentioning an experience keyword opens the section, a sentence
 * naming a role starts a new entry, a sentence naming an employer sets the
 * entry's company, and any other sentence is one of its points.
 */
module Experience {
  import opened Seqs
  import opened PyStr
  import opened Sections

  const HeaderKeywords: seq<string> := ["experience", "professional background", "employment"]
  const RoleKeywords: seq<string> := ["engineer", "developer", "analyst", "consultant", "manager"]
  const EmployerKeywords: seq<string> := ["at", "inc", "llc", "technologies", "solutions"]

  /** A sentence that opens the experience section. */
  predicate IsExperienceHeader(s: string) { ContainsAny(Lower(s), HeaderKeywords) }

  /** A sentence naming a job role: it starts a new entry. */
  predicate IsRoleLine(s: string) { ContainsAny(Lower(s), RoleKeywords) }

  /** A sentence naming an employer; it is only taken as one when it names no role. */
  predicate IsEmployerLine(s: string) { ContainsAny(Lower(s), EmployerKeywords) }

  /** A sentence kept as a point of the entry. */
  predicate IsPointLine(s: string) { !IsRoleLine(s) && !IsEmployerLine(s) }

  /** One entry of the work-experience list. */
  datatype Job = Job(title: string, company: string, points: seq<string>)

  const Blank: Job := Job("", "", [])

  /** The scanner's variables between two sentences. */
  datatype Scanner = Scanner(inSection: bool, current: Job, experience: seq<Job>)

  const Start: Scanner := Scanner(false, Blank, [])

  /** What the loop does with one sentence, once stripped. */
  function Handle(st: Scanner, s: string): Scanner {
    if !st.inSection then
      if IsExperienceHeader(s) then st.(inSection := true) else st
    else if IsRoleLine(s) then
      if st.current.title != "" then Scanner(true, Blank.(title := s), st.experience + [st.current])
      else st.(current := st.current.(title := s))
    else if IsEmployerLine(s) then st.(current := st.current.(company := s))
    else st.(current := st.current.(points := st.current.points + [s]))
  }

  /** The loop over the remaining sentences, each already stripped. */
  function Run(st: Scanner, ys: seq<string>): Scanner
    decreases |ys|
  {
    if ys == [] then st else Run(Handle(st, ys[0]), ys[1..])
  }

  /** After the loop: the open entry is kept when it has a title. */
  function Finish(st: Scanner): seq<Job> {
    if st.current.title != "" then st.experience + [st.current] else st.experience
  }

  /** The work-experience list `extract_info` returns for these sentences. */
  function ScanExperience(sents: seq<string>): seq<Job> {
    Finish(Run(Start, Stripped(sents)))
  }

  /** The entry a span of sentences makes: the last employer sentence is its company, the rest its points. */
  function Summary(title: string, lines: seq<string>): Job {
    Job(title, LastOr(IsEmployerLine, lines, ""), Filter(IsPointLine, lines))
  }

  function RecordOf(span: Span): Job {
    Summary(span.title, span.body)
  }

  function RecordsOf(spans: seq<Span>): (r: seq<Job>)
    ensures |r| == |spans|
  {
    seq(|spans|, k requires 0 <= k < |spans| => RecordOf(spans[k]))
  }

  /** The sentences of the experience section, stripped. */
  function ExperienceSection(sents: seq<string>): seq<string> {
    SectionAfter(IsExperienceHeader, Stripped(sents))
  }

  function JobTitles(jobs: seq<Job>): (r: seq<string>)
    ensures |r| == |jobs|
  {
    seq(|jobs|, k requires 0 <= k < |jobs| => jobs[k].title)
  }

  function AllPoints(jobs: seq<Job>): seq<string>
    decreases |jobs|
  {
    if jobs == [] then [] else jobs[0].points + AllPoints(jobs[1..])
  }

  lemma RecordsOfCons(span: Span, spans: seq<Span>)
    ensures RecordsOf([span] + spans) == [RecordOf(span)] + RecordsOf(spans)
  {
    assert forall k :: 1 <= k < |spans| + 1 ==> ([span] + spans)[k] == spans[k - 1];
  }

  /** A role sentence is never empty, so an entry with a role title is always kept. */
  lemma RoleLineNotEmpty(s: string)
    requires IsRoleLine(s)
    ensures s != ""
  {
    var k :| k in RoleKeywords && Contains(Lower(s), k);
    var i :| 0 <= i <= |Lower(s)| && OccursAt(Lower(s), k, i);
    assert |k| > 0;
  }

  /**
   * Inside the section, once an entry with a role title is open, the scanner
   * yields the records of the spans of the remaining sentences.
   */
  lemma {:induction false} RunWithTitle(title: string, lead: seq<string>, done: seq<Job>, ys: seq<string>)
    requires IsRoleLine(title)
    requires forall k :: 0 <= k < |lead| ==> !IsRoleLine(lead[k])
    ensures Finish(Run(Scanner(true, Summary(title, lead), done), ys))
      == done + RecordsOf(SpansFrom(IsRoleLine, lead, title, ys))
    decreases |ys|
  {
    if ys == [] {
      WithTitleEnd(title, lead, done);
    } else if IsRoleLine(ys[0]) {
      RunWithTitle(ys[0], [], done + [Summary(title, lead)], ys[1..]);
      WithTitleClose(title, lead, done, ys);
    } else {
      RunWithTitle(title, lead + [ys[0]], done, ys[1..]);
      WithTitleShift(title, lead, done, ys);
    }
  }

  lemma WithTitleEnd(title: string, lead: seq<string>, done: seq<Job>)
    requires IsRoleLine(title)
    ensures Finish(Scanner(true, Summary(title, lead), done))
      == done + RecordsOf(SpansFrom(IsRoleLine, lead, title, []))
  {
    RoleLineNotEmpty(title);
    assert lead + [] == lead;
    assert SpansFrom(IsRoleLine, lead, title, []) == [Span(title, lead)];
  }

  /** A role sentence closes the open entry and opens the next. */
  lemma WithTitleClose(title: string, lead: seq<string>, done: seq<Job>, ys: seq<string>)
    requires IsRoleLine(title)
    requires ys != [] && IsRoleLine(ys[0])
    requires Finish(Run(Scanner(true, Summary(ys[0], []), done + [Summary(title, lead)]), ys[1..]))
      == (done + [Summary(title, lead)]) + RecordsOf(SpansFrom(IsRoleLine, [], ys[0], ys[1..]))
    ensures Finish(Run(Scanner(true, Summary(title, lead), done), ys))
      == done + RecordsOf(SpansFrom(IsRoleLine, lead, title, ys))
  {
    RunClose(title, lead, done, ys);
    var next := SpansFrom(IsRoleLine, [], ys[0], ys[1..]);
    SplitFirst(ys);
    SpansFromClose(IsRoleLine, lead, title, ys[0], ys[1..]);
    RecordsOfCons(Span(title, lead), next);
    AppendAssoc(done, [Summary(title, lead)], RecordsOf(next));
  }

  /** The scanner's run after a role sentence, with a titled entry open. */
  lemma RunClose(title: string, lead: seq<string>, done: seq<Job>, ys: seq<string>)
    requires IsRoleLine(title)
    requires ys != [] && IsRoleLine(ys[0])
    ensures Run(Scanner(true, Summary(title, lead), done), ys)
      == Run(Scanner(true, Summary(ys[0], []), done + [Summary(title, lead)]), ys[1..])
  {
    RoleLineNotEmpty(title);
  }

  /** Any other sentence extends the open entry. */
  lemma WithTitleShift(title: string, lead: seq<string>, done: seq<Job>, ys: seq<string>)
    requires ys != [] && !IsRoleLine(ys[0])
    requires Finish(Run(Scanner(true, Summary(title, lead + [ys[0]]), done), ys[1..]))
      == done + RecordsOf(SpansFrom(IsRoleLine, lead + [ys[0]], title, ys[1..]))
    ensures Finish(Run(Scanner(true, Summary(title, lead), done), ys))
      == done + RecordsOf(SpansFrom(IsRoleLine, lead, title, ys))
  {
    RunShift(title, lead, done, ys);
    SplitFirst(ys);
    SpansFromShift(IsRoleLine, lead, title, ys[0], ys[1..]);
  }

  /** A sentence that names no role extends the open entry's span by one line. */
  lemma ExtendSummary(title: string, lead: seq<string>, done: seq<Job>, s: string)
    requires !IsRoleLine(s)
    ensures Handle(Scanner(true, Summary(title, lead), done), s) == Scanner(true, Summary(title, lead + [s]), done)
  {
    var lines := lead + [s];
    assert lines[..|lines| - 1] == lead;
    assert lines[|lines| - 1] == s;
  }

  /**
   * Inside the section, before the first role sentence, the sentences seen so
   * far are the lead of the first span.
   */
  lemma {:induction false} RunBeforeTitle(lead: seq<string>, ys: seq<string>)
    requires forall k :: 0 <= k < |lead| ==> !IsRoleLine(lead[k])
    ensures Finish(Run(Scanner(true, Summary("", lead), []), ys)) == RecordsOf(Spans(IsRoleLine, lead + ys))
    decreases |ys|
  {
    if ys == [] {
      assert lead + [] == lead;
      SpansWithoutTitle(IsRoleLine, lead);
    } else if IsRoleLine(ys[0]) {
      RunWithTitle(ys[0], lead, [], ys[1..]);
      BeforeTitleOpen(lead, ys);
    } else {
      RunBeforeTitle(lead + [ys[0]], ys[1..]);
      BeforeTitleShift(lead, ys);
    }
  }

  /** The first role sentence in the section opens the first entry, keeping what came before it. */
  lemma BeforeTitleOpen(lead: seq<string>, ys: seq<string>)
    requires forall k :: 0 <= k < |lead| ==> !IsRoleLine(lead[k])
    requires ys != [] && IsRoleLine(ys[0])
    requires Finish(Run(Scanner(true, Summary(ys[0], lead), []), ys[1..]))
      == [] + RecordsOf(SpansFrom(IsRoleLine, lead, ys[0], ys[1..]))
    ensures Finish(Run(Scanner(true, Summary("", lead), []), ys)) == RecordsOf(Spans(IsRoleLine, lead + ys))
  {
    assert Handle(Scanner(true, Summary("", lead), []), ys[0]) == Scanner(true, Summary(ys[0], lead), []);
    SplitFirst(ys);
    SpansOpen(IsRoleLine, lead, ys[0], ys[1..]);
  }

  lemma BeforeTitleShift(lead: seq<string>, ys: seq<string>)
    requires ys != [] && !IsRoleLine(ys[0])
    requires Finish(Run(Scanner(true, Summary("", lead + [ys[0]]), []), ys[1..]))
      == RecordsOf(Spans(IsRoleLine, (lead + [ys[0]]) + ys[1..]))
    ensures Finish(Run(Scanner(true, Summary("", lead), []), ys)) == RecordsOf(Spans(IsRoleLine, lead + ys))
  {
    MoveFirst(lead, ys);
    RunShift("", lead, [], ys);
  }

  /** The scanner's run after a sentence that names no role, with an entry open. */
  lemma RunShift(title: string, lead: seq<string>, done: seq<Job>, ys: seq<string>)
    requires ys != [] && !IsRoleLine(ys[0])
    ensures Run(Scanner(true, Summary(title, lead), done), ys)
      == Run(Scanner(true, Summary(title, lead + [ys[0]]), done), ys[1..])
  {
    ExtendSummary(title, lead, done, ys[0]);
  }

  /** Before the section opens, sentences are skipped up to and including the first header. */
  lemma {:induction false} RunSeeking(ys: seq<string>)
    ensures Finish(Run(Start, ys)) == RecordsOf(Spans(IsRoleLine, SectionAfter(IsExperienceHeader, ys)))
    decreases |ys|
  {
    if ys != [] {
      SplitFirst(ys);
      SectionAfterCons(IsExperienceHeader, ys[0], ys[1..]);
      if IsExperienceHeader(ys[0]) {
        assert Handle(Start, ys[0]) == Scanner(true, Summary("", []), []);
        RunBeforeTitle([], ys[1..]);
        assert [] + ys[1..] == ys[1..];
      } else {
        RunSeeking(ys[1..]);
      }
    }
  }

  /**
   * The scanner splits the experience section at its role sentences: each entry
   * is the record of one span, titled by a role sentence.
   */
  lemma ScanExperienceSpans(sents: seq<string>)
    ensures ScanExperience(sents) == RecordsOf(Spans(IsRoleLine, ExperienceSection(sents)))
  {
    RunSeeking(Stripped(sents));
  }

  lemma JobTitlesOfRecords(spans: seq<Span>)
    ensures JobTitles(RecordsOf(spans)) == Titles(spans)
  {
    forall k | 0 <= k < |spans| ensures JobTitles(RecordsOf(spans))[k] == Titles(spans)[k] {
      TitlesAt(spans, k);
    }
  }

  /**
   * The entries are titled by the role sentences of the experience section,
   * one entry per role sentence, in order.
   */
  lemma ExperienceTitles(sents: seq<string>)
    ensures JobTitles(ScanExperience(sents)) == Filter(IsRoleLine, ExperienceSection(sents))
    ensures |ScanExperience(sents)| == |Filter(IsRoleLine, ExperienceSection(sents))|
  {
    var spans := Spans(IsRoleLine, ExperienceSection(sents));
    ScanExperienceSpans(sents);
    JobTitlesOfRecords(spans);
    SpansTitles(IsRoleLine, ExperienceSection(sents));
  }

  /**
   * Every entry has a role sentence as title, an employer sentence that names
   * no role (the role test comes first) or nothing as company, and only
   * sentences naming neither as points.
   */
  lemma ExperienceEntries(sents: seq<string>, k: nat)
    requires k < |ScanExperience(sents)|
    ensures var job := ScanExperience(sents)[k];
      && IsRoleLine(job.title) && job.title != ""
      && (job.company == "" || (IsEmployerLine(job.company) && !IsRoleLine(job.company)))
      && forall x :: x in job.points ==> IsPointLine(x)
  {
    var section := ExperienceSection(sents);
    var spans := Spans(IsRoleLine, section);
    ScanExperienceSpans(sents);
    SpanTitleIsTitle(IsRoleLine, section, k);
    RoleLineNotEmpty(spans[k].title);
    var company := ScanExperience(sents)[k].company;
    if company != "" {
      SpanBodyNoTitle(IsRoleLine, section, k, company);
    }
    forall x | x in ScanExperience(sents)[k].points ensures IsPointLine(x) {
      InFilter(IsPointLine, spans[k].body, x);
    }
  }

  lemma {:induction false} AllPointsOfRecords(spans: seq<Span>)
    ensures AllPoints(RecordsOf(spans)) == Filter(IsPointLine, Flatten(Bodies(spans)))
    decreases |spans|
  {
    if spans != [] {
      SplitFirst(spans);
      RecordsOfCons(spans[0], spans[1..]);
      AllPointsOfRecords(spans[1..]);
      FlattenBodiesCons(spans[0], spans[1..]);
      FilterAppend(IsPointLine, spans[0].body, Flatten(Bodies(spans[1..])));
      assert RecordsOf(spans)[1..] == RecordsOf(spans[1..]);
    }
  }

  /** Dropping the role sentences first does not change which sentences are points. */
  lemma {:induction false} PointsOfRejected(xs: seq<string>)
    ensures Filter(IsPointLine, Reject(IsRoleLine, xs)) == Filter(IsPointLine, xs)
    decreases |xs|
  {
    if xs != [] {
      var init := xs[..|xs| - 1];
      var last := xs[|xs| - 1];
      PointsOfRejected(init);
      if IsRoleLine(last) {
        assert Reject(IsRoleLine, xs) == Reject(IsRoleLine, init);
      } else {
        FilterAppend(IsPointLine, Reject(IsRoleLine, init), [last]);
        assert [last][..0] == [];
      }
    }
  }

  /**
   * When the experience section names a role, every sentence of it that names
   * neither a role nor an employer is a point of exactly one entry, in order;
   * those before the first role sentence go to the first entry.
   */
  lemma ExperiencePoints(sents: seq<string>)
    requires Filter(IsRoleLine, ExperienceSection(sents)) != []
    ensures AllPoints(ScanExperience(sents)) == Filter(IsPointLine, ExperienceSection(sents))
  {
    var section := ExperienceSection(sents);
    ScanExperienceSpans(sents);
    AllPointsOfRecords(Spans(IsRoleLine, section));
    SpansBodies(IsRoleLine, section);
    PointsOfRejected(section);
  }

  /** Without an experience header there is no work experience. */
  lemma NoHeaderNoExperience(sents: seq<string>)
    requires forall k :: 0 <= k < |sents| ==> !IsExperienceHeader(Strip(sents[k]))
    ensures ScanExperience(sents) == []
  {
    ScanExperienceSpans(sents);
    var ys := Stripped(sents);
    StrippedAt(sents);
    assert FirstWhere(IsExperienceHeader, ys) == |ys|;
  }

  /** A section without a role sentence gives no work experience, whatever else it holds. */
  lemma NoRoleNoExperience(sents: seq<string>)
    requires Filter(IsRoleLine, ExperienceSection(sents)) == []
    ensures ScanExperience(sents) == []
  {
    ExperienceTitles(sents);
  }

  /**
   * The loop of `extract_info` over the sentences, with the entry under
   * construction and the list built so far as local variables.
   */
  method ExtractExperience(sentences: seq<string>) returns (experience: seq<Job>)
    ensures experience == ScanExperience(sentences)
  {
    experience := [];
    var current := Blank;
    var inSection := false;
    for n := 0 to |sentences|
      invariant Finish(Run(Scanner(inSection, current, experience), Stripped(sentences[n..])))
        == ScanExperience(sentences)
    {
      ghost var st := Scanner(inSection, current, experience);
      var s := Strip(sentences[n]);
      assert Stripped(sentences[n..]) == [s] + Stripped(sentences[n + 1..]) by {
        assert sentences[n..][1..] == sentences[n + 1..];
      }
      assert Run(st, Stripped(sentences[n..])) == Run(Handle(st, s), Stripped(sentences[n + 1..]));
      if !inSection && IsExperienceHeader(s) {
        inSection := true;
        continue;
      }
      if inSection {
        if IsRoleLine(s) {
          if current.title != "" {
            experience := experience + [current];
            current := Blank;
          }
          current := current.(title := s);
        } else if IsEmployerLine(s) {
          current := current.(company := s);
        } else {
          current := current.(points := current.points + [s]);
        }
      }
    }
    if current.title != "" {
      experience := experience + [current];
    }
  }

  lemma ExampleHeaders()
    ensures !IsExperienceHeader("Jane Doe") && IsExperienceHeader("Experience")
  {
    assert Lower("Jane Doe") == "jane doe";
    NoKeyIn("jane doe", HeaderKeywords, [1, 0, 1]);
    assert Lower("Experience") == "experience";
    SomeKeyIn("experience", HeaderKeywords, 0, 0);
  }

  lemma ExampleRoles()
    ensures IsRoleLine("Software Engineer") && IsRoleLine("Developer")
  {
    ExampleFirstRole();
    assert Lower("Developer") == "developer";
    SomeKeyIn("developer", RoleKeywords, 1, 0);
  }

  lemma ExampleFirstRole()
    ensures IsRoleLine("Software Engineer")
  {
    assert Lower("Software Engineer") == "software engineer";
    SomeKeyIn("software engineer", RoleKeywords, 0, 9);
  }

  lemma ExampleEmployer()
    ensures !IsRoleLine("Acme Inc") && IsEmployerLine("Acme Inc")
  {
    assert Lower("Acme Inc") == "acme inc";
    NoKeyIn("acme inc", RoleKeywords, [2, 0, 3, 1, 4]);
    SomeKeyIn("acme inc", EmployerKeywords, 1, 5);
  }

  lemma ExamplePoints()
    ensures IsPointLine("Wrote tests") && IsPointLine("Fixed bugs")
  {
    assert Lower("Wrote tests") == "wrote tests";
    NoKeyIn("wrote tests", RoleKeywords, [1, 0, 0, 0, 0]);
    NoKeyIn("wrote tests", EmployerKeywords, [0, 0, 0, 3, 2]);
    ExampleLastPoint();
  }

  lemma ExampleLastPoint()
    ensures IsPointLine("Fixed bugs")
  {
    assert Lower("Fixed bugs") == "fixed bugs";
    NoKeyIn("fixed bugs", RoleKeywords, [1, 2, 0, 0, 0]);
    NoKeyIn("fixed bugs", EmployerKeywords, [0, 1, 0, 0, 1]);
  }

  lemma ExampleStripped()
    ensures Stripped(["Jane Doe", " Experience ", "Software Engineer", "Acme Inc", "Wrote tests", "Developer", "Fixed bugs"])
      == ["Jane Doe", "Experience", "Software Engineer", "Acme Inc", "Wrote tests", "Developer", "Fixed bugs"]
  {
    var sents := ["Jane Doe", " Experience ", "Software Engineer", "Acme Inc", "Wrote tests", "Developer", "Fixed bugs"];
    var ys := ["Jane Doe", "Experience", "Software Engineer", "Acme Inc", "Wrote tests", "Developer", "Fixed bugs"];
    ExamplePadded();
    ExampleUnpadded();
    ExampleUnpaddedLater();
    StrippedEach(sents, ys);
  }

  lemma ExamplePadded()
    ensures Strip(" Experience ") == "Experience"
  {
    StripBoundsUnique(" Experience ", 1, 11);
    assert " Experience "[1..11] == "Experience";
  }

  lemma ExampleUnpadded()
    ensures Strip("Jane Doe") == "Jane Doe" && Strip("Software Engineer") == "Software Engineer"
    ensures Strip("Acme Inc") == "Acme Inc"
  {
    StripUnpadded("Jane Doe");
    StripUnpadded("Software Engineer");
    StripUnpadded("Acme Inc");
  }

  lemma ExampleUnpaddedLater()
    ensures Strip("Wrote tests") == "Wrote tests"
    ensures Strip("Developer") == "Developer" && Strip("Fixed bugs") == "Fixed bugs"
  {
    StripUnpadded("Wrote tests");
    StripUnpadded("Developer");
    StripUnpadded("Fixed bugs");
  }

  /**
   * A short resume: the name comes before the header and is skipped, the
   * employer sentence becomes the company and the rest become points.
   */
  lemma ExperienceExample()
    ensures ScanExperience(["Jane Doe", " Experience ", "Software Engineer", "Acme Inc", "Wrote tests", "Developer", "Fixed bugs"])
      == [Job("Software Engineer", "Acme Inc", ["Wrote tests"]), Job("Developer", "", ["Fixed bugs"])]
  {
    ExampleStripped();
    ExampleFinish(["Jane Doe", "Experience", "Software Engineer", "Acme Inc", "Wrote tests", "Developer", "Fixed bugs"]);
  }

  lemma ExampleFinish(ys: seq<string>)
    requires ys == ["Jane Doe", "Experience", "Software Engineer", "Acme Inc", "Wrote tests", "Developer", "Fixed bugs"]
    ensures Finish(Run(Start, ys)) == [Job("Software Engineer", "Acme Inc", ["Wrote tests"]), Job("Developer", "", ["Fixed bugs"])]
  {
    var first := Job("Software Engineer", "Acme Inc", ["Wrote tests"]);
    ExampleHandles(ys, first);
    assert ys[7..] == [];
  }

  lemma ExampleHandles(ys: seq<string>, first: Job)
    requires ys == ["Jane Doe", "Experience", "Software Engineer", "Acme Inc", "Wrote tests", "Developer", "Fixed bugs"]
    requires first == Job("Software Engineer", "Acme Inc", ["Wrote tests"])
    ensures Run(Start, ys) == Run(Scanner(true, Job("Developer", "", ["Fixed bugs"]), [first]), ys[7..])
  {
    ExampleFirstHandles(ys);
    ExampleLaterHandles(ys, first);
  }

  lemma ExampleFirstHandles(ys: seq<string>)
    requires ys == ["Jane Doe", "Experience", "Software Engineer", "Acme Inc", "Wrote tests", "Developer", "Fixed bugs"]
    ensures Run(Start, ys) == Run(Scanner(true, Job("Software Engineer", "Acme Inc", []), []), ys[4..])
  {
    ExampleHeaders();
    ExampleFirstRole();
    ExampleEmployer();
    assert ys[0..] == ys;
    RunStep(Start, ys, 0, Start);
    RunStep(Start, ys, 1, Scanner(true, Blank, []));
    RunStep(Scanner(true, Blank, []), ys, 2, Scanner(true, Job("Software Engineer", "", []), []));
    RunStep(Scanner(true, Job("Software Engineer", "", []), []), ys, 3,
      Scanner(true, Job("Software Engineer", "Acme Inc", []), []));
  }

  lemma ExampleLaterHandles(ys: seq<string>, first: Job)
    requires ys == ["Jane Doe", "Experience", "Software Engineer", "Acme Inc", "Wrote tests", "Developer", "Fixed bugs"]
    requires first == Job("Software Engineer", "Acme Inc", ["Wrote tests"])
    ensures Run(Scanner(true, Job("Software Engineer", "Acme Inc", []), []), ys[4..])
      == Run(Scanner(true, Job("Developer", "", ["Fixed bugs"]), [first]), ys[7..])
  {
    ExampleRoles();
    ExamplePoints();
    RunStep(Scanner(true, Job("Software Engineer", "Acme Inc", []), []), ys, 4, Scanner(true, first, []));
    RunStep(Scanner(true, first, []), ys, 5, Scanner(true, Job("Developer", "", []), [first]));
    RunStep(Scanner(true, Job("Developer", "", []), [first]), ys, 6,
      Scanner(true, Job("Developer", "", ["Fixed bugs"]), [first]));
  }

  /** One step of the loop in a concrete run. */
  lemma RunStep(st: Scanner, ys: seq<string>, k: nat, next: Scanner)
    requires k < |ys| && Handle(st, ys[k]) == next
    ensures Run(st, ys[k..]) == Run(next, ys[k + 1..])
  {
    assert ys[k..][1..] == ys[k + 1..];
  }

  /**
   * The employer test is a substring test, so "at" inside a word counts: a
   * sentence about data pipelines is taken as the company, not as a point.
   */
  lemma EmployerKeywordInsideWord()
    ensures ScanExperience(["Experience", "Data Analyst", "Built data tools"])
      == [Job("Data Analyst", "Built data tools", [])]
  {
    var sents := ["Experience", "Data Analyst", "Built data tools"];
    StripUnpadded("Experience");
    StripUnpadded("Data Analyst");
    StripUnpadded("Built data tools");
    StrippedEach(sents, sents);
    InsideWordRun(sents);
    assert sents[3..] == [];
  }

  lemma InsideWordLines()
    ensures IsRoleLine("Data Analyst")
    ensures !IsRoleLine("Built data tools") && IsEmployerLine("Built data tools")
  {
    DataAnalystIsRole();
    assert Lower("Built data tools") == "built data tools";
    BuiltDataToolsNamesNoRole();
    SomeKeyIn("built data tools", EmployerKeywords, 0, 7);
  }

  lemma BuiltDataToolsNamesNoRole()
    ensures !ContainsAny("built data tools", RoleKeywords)
  {
    NoKeyIn("built data tools", RoleKeywords, [0, 1, 1, 0, 0]);
  }

  lemma DataAnalystIsRole()
    ensures IsRoleLine("Data Analyst")
  {
    assert Lower("Data Analyst") == "data analyst";
    SomeKeyIn("data analyst", RoleKeywords, 2, 5);
  }

  lemma InsideWordRun(sents: seq<string>)
    requires sents == ["Experience", "Data Analyst", "Built data tools"]
    ensures Run(Start, sents) == Run(Scanner(true, Job("Data Analyst", "Built data tools", []), []), sents[3..])
  {
    ExampleHeaders();
    InsideWordLines();
    assert sents[0..] == sents;
    RunStep(Start, sents, 0, Scanner(true, Blank, []));
    RunStep(Scanner(true, Blank, []), sents, 1, Scanner(true, Job("Data Analyst", "", []), []));
    RunStep(Scanner(true, Job("Data Analyst", "", []), []), sents, 2,
      Scanner(true, Job("Data Analyst", "Built data tools", []), []));
  }
}
