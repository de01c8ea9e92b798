/**
 * The projects scanner of `extract_info`. The first sentence mentioning a
 * project opens the section; from then on a sentence in upper case or title
 * case starts a new project and any other sentence is added to its description.
 */
module Projects {
  import opened Seqs
  import opened PyStr
  import opened Sections

  const HeaderKeywords: seq<string> := ["projects", "project"]

  /** A sentence that opens the projects section. */
  predicate IsProjectsHeader(s: string) { ContainsAny(Lower(s), HeaderKeywords) }

  /** A sentence that names a project: Python's `s.isupper() or s.istitle()`. */
  predicate IsHeading(s: string) { IsUpper(s) || IsTitle(s) }

  /** One entry of the projects list. */
  datatype Project = Project(title: string, description: seq<string>)

  const Blank: Project := Project("", [])

  /** The scanner's variables between two sentences. */
  datatype Scanner = Scanner(inSection: bool, current: Project, projects: seq<Project>)

  const Start: Scanner := Scanner(false, Blank, [])

  /** What the loop does with one sentence, once stripped. */
  function Handle(st: Scanner, s: string): Scanner {
    if !st.inSection then
      if IsProjectsHeader(s) then st.(inSection := true) else st
    else if IsHeading(s) then
      if st.current.title != "" then Scanner(true, Blank.(title := s), st.projects + [st.current])
      else st.(current := st.current.(title := s))
    else st.(current := st.current.(description := st.current.description + [s]))
  }

  /** The loop over the remaining sentences, each already stripped. */
  function Run(st: Scanner, ys: seq<string>): Scanner
    decreases |ys|
  {
    if ys == [] then st else Run(Handle(st, ys[0]), ys[1..])
  }

  /** After the loop: the open project is kept when it has a title. */
  function Finish(st: Scanner): seq<Project> {
    if st.current.title != "" then st.projects + [st.current] else st.projects
  }

  /** The projects list `extract_info` returns for these sentences. */
  function ScanProjects(sents: seq<string>): seq<Project> {
    Finish(Run(Start, Stripped(sents)))
  }

  function RecordOf(span: Span): Project {
    Project(span.title, span.body)
  }

  function RecordsOf(spans: seq<Span>): (r: seq<Project>)
    ensures |r| == |spans|
  {
    seq(|spans|, k requires 0 <= k < |spans| => RecordOf(spans[k]))
  }

  /** The sentences of the projects section, stripped. */
  function ProjectsSection(sents: seq<string>): seq<string> {
    SectionAfter(IsProjectsHeader, Stripped(sents))
  }

  function ProjectTitles(projects: seq<Project>): (r: seq<string>)
    ensures |r| == |projects|
  {
    seq(|projects|, k requires 0 <= k < |projects| => projects[k].title)
  }

  function AllDescriptions(projects: seq<Project>): seq<string>
    decreases |projects|
  {
    if projects == [] then [] else projects[0].description + AllDescriptions(projects[1..])
  }

  /** Since "projects" contains "project", the header test is the test for "project". */
  lemma ProjectsHeaderMeaning(s: string)
    ensures IsProjectsHeader(s) <==> Contains(Lower(s), "project")
  {
    assert "project" in HeaderKeywords;
    if Contains(Lower(s), "projects") {
      ContainsKeyPrefix(Lower(s), "projects", 7);
      assert "projects"[..7] == "project";
    }
  }

  /** A heading has a cased character, so it is never empty and a titled project is always kept. */
  lemma HeadingNotEmpty(s: string)
    requires IsHeading(s)
    ensures s != ""
  {
    IsTitleMeaning(s);
  }

  lemma RecordsOfCons(span: Span, spans: seq<Span>)
    ensures RecordsOf([span] + spans) == [RecordOf(span)] + RecordsOf(spans)
  {
    assert forall k :: 1 <= k < |spans| + 1 ==> ([span] + spans)[k] == spans[k - 1];
  }

  /**
   * Inside the section, once a project with a heading as title is open, the
   * scanner yields the records of the spans of the remaining sentences.
   */
  lemma {:induction false} RunWithTitle(title: string, lead: seq<string>, done: seq<Project>, ys: seq<string>)
    requires IsHeading(title)
    requires forall k :: 0 <= k < |lead| ==> !IsHeading(lead[k])
    ensures Finish(Run(Scanner(true, Project(title, lead), done), ys))
      == done + RecordsOf(SpansFrom(IsHeading, lead, title, ys))
    decreases |ys|
  {
    if ys == [] {
      WithTitleEnd(title, lead, done);
    } else if IsHeading(ys[0]) {
      RunWithTitle(ys[0], [], done + [Project(title, lead)], ys[1..]);
      WithTitleClose(title, lead, done, ys);
    } else {
      RunWithTitle(title, lead + [ys[0]], done, ys[1..]);
      WithTitleShift(title, lead, done, ys);
    }
  }

  lemma WithTitleEnd(title: string, lead: seq<string>, done: seq<Project>)
    requires IsHeading(title)
    ensures Finish(Scanner(true, Project(title, lead), done))
      == done + RecordsOf(SpansFrom(IsHeading, lead, title, []))
  {
    HeadingNotEmpty(title);
    assert lead + [] == lead;
    assert SpansFrom(IsHeading, lead, title, []) == [Span(title, lead)];
  }

  /** A heading closes the open project and opens the next. */
  lemma WithTitleClose(title: string, lead: seq<string>, done: seq<Project>, ys: seq<string>)
    requires IsHeading(title)
    requires ys != [] && IsHeading(ys[0])
    requires Finish(Run(Scanner(true, Project(ys[0], []), done + [Project(title, lead)]), ys[1..]))
      == (done + [Project(title, lead)]) + RecordsOf(SpansFrom(IsHeading, [], ys[0], ys[1..]))
    ensures Finish(Run(Scanner(true, Project(title, lead), done), ys))
      == done + RecordsOf(SpansFrom(IsHeading, lead, title, ys))
  {
    RunClose(title, lead, done, ys);
    var next := SpansFrom(IsHeading, [], ys[0], ys[1..]);
    SplitFirst(ys);
    SpansFromClose(IsHeading, lead, title, ys[0], ys[1..]);
    RecordsOfCons(Span(title, lead), next);
    AppendAssoc(done, [Project(title, lead)], RecordsOf(next));
  }

  /** The scanner's run after a heading, with a titled project open. */
  lemma RunClose(title: string, lead: seq<string>, done: seq<Project>, ys: seq<string>)
    requires IsHeading(title)
    requires ys != [] && IsHeading(ys[0])
    ensures Run(Scanner(true, Project(title, lead), done), ys)
      == Run(Scanner(true, Project(ys[0], []), done + [Project(title, lead)]), ys[1..])
  {
    HeadingNotEmpty(title);
  }

  /** Any other sentence extends the open project's description. */
  lemma WithTitleShift(title: string, lead: seq<string>, done: seq<Project>, ys: seq<string>)
    requires ys != [] && !IsHeading(ys[0])
    requires Finish(Run(Scanner(true, Project(title, lead + [ys[0]]), done), ys[1..]))
      == done + RecordsOf(SpansFrom(IsHeading, lead + [ys[0]], title, ys[1..]))
    ensures Finish(Run(Scanner(true, Project(title, lead), done), ys))
      == done + RecordsOf(SpansFrom(IsHeading, lead, title, ys))
  {
    SplitFirst(ys);
    SpansFromShift(IsHeading, lead, title, ys[0], ys[1..]);
  }

  /**
   * Inside the section, before the first heading, the sentences seen so far
   * are the description of the first project.
   */
  lemma {:induction false} RunBeforeTitle(lead: seq<string>, ys: seq<string>)
    requires forall k :: 0 <= k < |lead| ==> !IsHeading(lead[k])
    ensures Finish(Run(Scanner(true, Project("", lead), []), ys)) == RecordsOf(Spans(IsHeading, lead + ys))
    decreases |ys|
  {
    if ys == [] {
      assert lead + [] == lead;
      SpansWithoutTitle(IsHeading, lead);
    } else if IsHeading(ys[0]) {
      RunWithTitle(ys[0], lead, [], ys[1..]);
      BeforeTitleOpen(lead, ys);
    } else {
      RunBeforeTitle(lead + [ys[0]], ys[1..]);
      BeforeTitleShift(lead, ys);
    }
  }

  /** The first heading in the section opens the first project, keeping what came before it. */
  lemma BeforeTitleOpen(lead: seq<string>, ys: seq<string>)
    requires forall k :: 0 <= k < |lead| ==> !IsHeading(lead[k])
    requires ys != [] && IsHeading(ys[0])
    requires Finish(Run(Scanner(true, Project(ys[0], lead), []), ys[1..]))
      == [] + RecordsOf(SpansFrom(IsHeading, lead, ys[0], ys[1..]))
    ensures Finish(Run(Scanner(true, Project("", lead), []), ys)) == RecordsOf(Spans(IsHeading, lead + ys))
  {
    assert Handle(Scanner(true, Project("", lead), []), ys[0]) == Scanner(true, Project(ys[0], lead), []);
    SplitFirst(ys);
    SpansOpen(IsHeading, lead, ys[0], ys[1..]);
  }

  lemma BeforeTitleShift(lead: seq<string>, ys: seq<string>)
    requires ys != [] && !IsHeading(ys[0])
    requires Finish(Run(Scanner(true, Project("", lead + [ys[0]]), []), ys[1..]))
      == RecordsOf(Spans(IsHeading, (lead + [ys[0]]) + ys[1..]))
    ensures Finish(Run(Scanner(true, Project("", lead), []), ys)) == RecordsOf(Spans(IsHeading, lead + ys))
  {
    MoveFirst(lead, ys);
  }

  /** Before the section opens, sentences are skipped up to and including the first header. */
  lemma {:induction false} RunSeeking(ys: seq<string>)
    ensures Finish(Run(Start, ys)) == RecordsOf(Spans(IsHeading, SectionAfter(IsProjectsHeader, ys)))
    decreases |ys|
  {
    if ys != [] {
      SplitFirst(ys);
      SectionAfterCons(IsProjectsHeader, ys[0], ys[1..]);
      if IsProjectsHeader(ys[0]) {
        assert Handle(Start, ys[0]) == Scanner(true, Project("", []), []);
        RunBeforeTitle([], ys[1..]);
        assert [] + ys[1..] == ys[1..];
      } else {
        RunSeeking(ys[1..]);
      }
    }
  }

  /**
   * The scanner splits the projects section at its headings: each project is
   * a heading followed by the sentences up to the next heading.
   */
  lemma ScanProjectsSpans(sents: seq<string>)
    ensures ScanProjects(sents) == RecordsOf(Spans(IsHeading, ProjectsSection(sents)))
  {
    RunSeeking(Stripped(sents));
  }

  lemma ProjectTitlesOfRecords(spans: seq<Span>)
    ensures ProjectTitles(RecordsOf(spans)) == Titles(spans)
  {
    forall k | 0 <= k < |spans| ensures ProjectTitles(RecordsOf(spans))[k] == Titles(spans)[k] {
      TitlesAt(spans, k);
    }
  }

  /** The projects are titled by the headings of the section, one project per heading, in order. */
  lemma ProjectsTitles(sents: seq<string>)
    ensures ProjectTitles(ScanProjects(sents)) == Filter(IsHeading, ProjectsSection(sents))
    ensures |ScanProjects(sents)| == |Filter(IsHeading, ProjectsSection(sents))|
  {
    ScanProjectsSpans(sents);
    ProjectTitlesOfRecords(Spans(IsHeading, ProjectsSection(sents)));
    SpansTitles(IsHeading, ProjectsSection(sents));
  }

  /** Every project's title is a non-empty heading and its description holds no heading. */
  lemma ProjectEntries(sents: seq<string>, k: nat)
    requires k < |ScanProjects(sents)|
    ensures var p := ScanProjects(sents)[k];
      && IsHeading(p.title) && p.title != ""
      && forall x :: x in p.description ==> !IsHeading(x)
  {
    ScanProjectsSpans(sents);
    SpanTitleIsTitle(IsHeading, ProjectsSection(sents), k);
    HeadingNotEmpty(ScanProjects(sents)[k].title);
    forall x | x in ScanProjects(sents)[k].description ensures !IsHeading(x) {
      SpanBodyNoTitle(IsHeading, ProjectsSection(sents), k, x);
    }
  }

  lemma {:induction false} DescriptionsOfRecords(spans: seq<Span>)
    ensures AllDescriptions(RecordsOf(spans)) == Flatten(Bodies(spans))
    decreases |spans|
  {
    if spans != [] {
      SplitFirst(spans);
      RecordsOfCons(spans[0], spans[1..]);
      DescriptionsOfRecords(spans[1..]);
      FlattenBodiesCons(spans[0], spans[1..]);
      assert RecordsOf(spans)[1..] == RecordsOf(spans[1..]);
    }
  }

  /**
   * When the projects section has a heading, every other sentence of it is
   * in exactly one description, in order; those before the first heading go
   * to the first project.
   */
  lemma ProjectsDescriptions(sents: seq<string>)
    requires Filter(IsHeading, ProjectsSection(sents)) != []
    ensures AllDescriptions(ScanProjects(sents)) == Reject(IsHeading, ProjectsSection(sents))
  {
    ScanProjectsSpans(sents);
    DescriptionsOfRecords(Spans(IsHeading, ProjectsSection(sents)));
    SpansBodies(IsHeading, ProjectsSection(sents));
  }

  /** Without a sentence mentioning a project there are no projects. */
  lemma NoHeaderNoProjects(sents: seq<string>)
    requires forall k :: 0 <= k < |sents| ==> !IsProjectsHeader(Strip(sents[k]))
    ensures ScanProjects(sents) == []
  {
    ScanProjectsSpans(sents);
    StrippedAt(sents);
    assert FirstWhere(IsProjectsHeader, Stripped(sents)) == |Stripped(sents)|;
  }

  /** A section without a heading gives no projects, whatever else it holds. */
  lemma NoHeadingNoProjects(sents: seq<string>)
    requires Filter(IsHeading, ProjectsSection(sents)) == []
    ensures ScanProjects(sents) == []
  {
    ProjectsTitles(sents);
  }

  /**
   * The loop of `extract_info` over the sentences, with the project under
   * construction and the list built so far as local variables.
   */
  method ExtractProjects(sentences: seq<string>) returns (projects: seq<Project>)
    ensures projects == ScanProjects(sentences)
  {
    projects := [];
    var current := Blank;
    var inSection := false;
    for n := 0 to |sentences|
      invariant Finish(Run(Scanner(inSection, current, projects), Stripped(sentences[n..])))
        == ScanProjects(sentences)
    {
      ghost var st := Scanner(inSection, current, projects);
      var s := Strip(sentences[n]);
      assert Stripped(sentences[n..]) == [s] + Stripped(sentences[n + 1..]) by {
        assert sentences[n..][1..] == sentences[n + 1..];
      }
      assert Run(st, Stripped(sentences[n..])) == Run(Handle(st, s), Stripped(sentences[n + 1..]));
      if !inSection && IsProjectsHeader(s) {
        inSection := true;
        continue;
      }
      if inSection {
        if IsUpper(s) || IsTitle(s) {
          if current.title != "" {
            projects := projects + [current];
            current := Blank;
          }
          current := current.(title := s);
        } else {
          current := current.(description := current.description + [s]);
        }
      }
    }
    if current.title != "" {
      projects := projects + [current];
    }
  }

  /** One step of the loop in a concrete run. */
  lemma RunStep(st: Scanner, ys: seq<string>, k: nat, next: Scanner)
    requires k < |ys| && Handle(st, ys[k]) == next
    ensures Run(st, ys[k..]) == Run(next, ys[k + 1..])
  {
    assert ys[k..][1..] == ys[k + 1..];
  }

  lemma ExampleHeadings()
    ensures IsProjectsHeader("Projects")
    ensures IsHeading("ALPHA TOOL") && IsHeading("Beta Service")
  {
    assert Lower("Projects") == "projects";
    SomeKeyIn("projects", HeaderKeywords, 0, 0);
    assert IsAsciiUpper("ALPHA TOOL"[0]);
    assert IsTitle("Beta Service");
  }

  lemma ExampleDescriptions()
    ensures !IsHeading("A CLI utility.") && !IsHeading("A web service.")
  {
    assert IsAsciiLower("A CLI utility."[6]);
    assert !IsTitle("A CLI utility.");
    assert IsAsciiLower("A web service."[2]);
    assert !IsTitle("A web service.");
  }

  lemma ExampleRun(ys: seq<string>, first: Project)
    requires ys == ["Projects", "ALPHA TOOL", "A CLI utility.", "Beta Service", "A web service."]
    requires first == Project("ALPHA TOOL", ["A CLI utility."])
    ensures Run(Start, ys) == Run(Scanner(true, Project("Beta Service", ["A web service."]), [first]), ys[5..])
  {
    ExampleHeadings();
    ExampleDescriptions();
    assert ys[0..] == ys;
    RunStep(Start, ys, 0, Scanner(true, Blank, []));
    RunStep(Scanner(true, Blank, []), ys, 1, Scanner(true, Project("ALPHA TOOL", []), []));
    RunStep(Scanner(true, Project("ALPHA TOOL", []), []), ys, 2, Scanner(true, first, []));
    RunStep(Scanner(true, first, []), ys, 3, Scanner(true, Project("Beta Service", []), [first]));
    RunStep(Scanner(true, Project("Beta Service", []), [first]), ys, 4,
      Scanner(true, Project("Beta Service", ["A web service."]), [first]));
  }

  lemma ExampleStripped(ys: seq<string>)
    requires ys == ["Projects", "ALPHA TOOL", "A CLI utility.", "Beta Service", "A web service."]
    ensures Stripped(ys) == ys
  {
    StripUnpadded("Projects");
    StripUnpadded("ALPHA TOOL");
    StripUnpadded("A CLI utility.");
    StripUnpadded("Beta Service");
    StripUnpadded("A web service.");
    StrippedEach(ys, ys);
  }

  /**
   * A short projects section: an upper-case and a title-case heading, each
   * followed by a sentence of description.
   */
  lemma ProjectsExample()
    ensures ScanProjects(["Projects", "ALPHA TOOL", "A CLI utility.", "Beta Service", "A web service."])
      == [Project("ALPHA TOOL", ["A CLI utility."]), Project("Beta Service", ["A web service."])]
  {
    var ys := ["Projects", "ALPHA TOOL", "A CLI utility.", "Beta Service", "A web service."];
    ExampleStripped(ys);
    ExampleRun(ys, Project("ALPHA TOOL", ["A CLI utility."]));
    assert ys[5..] == [];
  }
}
