# Resume field extraction, modelled in Dafny

This project models `extract_info`, the core of the TalentParse resume parser.
The function turns the plain text of a resume, together with the sentences a
segmenter found in it, into a profile with six fields:

- `name`: the first line of the text, stripped of surrounding whitespace.
- `email`: the leftmost, longest match of the pattern
  `[a-zA-Z0-9._%+-]+@[a-zA-Z0-9.-]+\.[a-zA-Z]{2,}`.
- `phone`: the leftmost, longest match of `\+?\d[\d -]{8,}\d`.
- `skills`: the entries of a fixed twelve-entry taxonomy that occur as
  case-insensitive whole words. They are listed in taxonomy order.
- `work_experience`: the records a two-state scanner builds from the sentences
  after the first experience header.
- `projects`: the records a second scanner of the same shape builds from the
  sentences after the first projects header.

The modules follow that structure:

- `Seqs` holds `Option` and list combinators: filter, reject, flatten and subsequence.
- `PyStr` models Python's `strip`, `lower`, `isupper`, `istitle` and the substring test `k in s`.
- `Patterns` models the two regular expressions and `\b...\b`. Each matcher is written the way
  Python's backtracking engine finds a match at one start position. It is proved to return the
  leftmost, longest match of a declarative description of the pattern's language.
- `Fields` models the name, email, phone and skills fields.
- `Sections` gives a reference definition of section scanning. It cuts the section into spans,
  each a title sentence followed by its body sentences.
- `Experience` and `Projects` model the two scanners in two forms. One is the loop over the
  sentences with mutable locals, as the program runs it. The other is a left fold. Both are
  proved equal to the span segmentation of the section.
- `Extractor` assembles the profile.

## Model

| member | source | states |
|---|---|---|
| PyStr.StripBounds | resume_extractor.py:89 | `strip()` keeps one contiguous slice: everything before and after it is whitespace, and a non-empty result starts and ends with a non-space |
| PyStr.StripBoundsUnique | resume_extractor.py:113 | any bounds with the properties of a strip are the strip's bounds, so the slice is unique |
| PyStr.Strip | resume_extractor.py:113 | the stripped sentence is empty exactly when every character is whitespace; otherwise its ends are not whitespace |
| PyStr.Lower | resume_extractor.py:114 | `lower()` keeps the length, maps each ASCII capital to its lower-case letter and leaves every other character alone |
| PyStr.IsTitleMeaning | resume_extractor.py:148 | `istitle()` holds iff some character is cased, every capital starts the string or follows an uncased character, and every lower-case letter follows a cased one |
| PyStr.TitleScanMeaning | resume_extractor.py:148 | the left-to-right scan behind `istitle()` agrees, from any position and flag state, with the position-by-position description |
| Patterns.LastTldDot | resume_extractor.py:92 | the last position in a range holding a dot followed by two letters, where the top-level domain can begin; none when there is no such position |
| Patterns.EmailMatchAt | resume_extractor.py:92 | the greedy email match at one start is a match, and no longer one exists; when it reports none, no match starts there |
| Patterns.EmailSearch | resume_extractor.py:92 | the reported email match starts at the leftmost position where any match starts, and no match exists when none is reported |
| Patterns.LastDigit | resume_extractor.py:96 | the last digit in a range, where the greedy phone match backs off to; none when the range has no digit |
| Patterns.PhoneMatchAt | resume_extractor.py:96 | the greedy phone match at one start is a match, and no longer one exists; when it reports none, no match starts there |
| Patterns.PhoneSearch | resume_extractor.py:96 | the reported phone match is the leftmost match, with its longest end; none is reported only when no substring matches |
| Patterns.WholeWordFrom | resume_extractor.py:104 | `\b<word>\b` with IGNORECASE is found iff some position has the word, up to ASCII case, between two word boundaries |
| Fields.LineEnd | resume_extractor.py:89 | the end of the first line is the first newline, or the end of the text |
| Fields.FirstLine | resume_extractor.py:89 | `text.split('\n')[0]` is a newline-free prefix of the text, followed by a newline unless it is the whole text |
| Fields.Name | resume_extractor.py:89 | the name is absent exactly when the text is empty; otherwise it is a stripped, newline-free line |
| Fields.NameOfFirstLine | resume_extractor.py:89 | the name is the stripped text before the first newline, whatever follows |
| Fields.NameOfSingleLine | resume_extractor.py:89 | a non-empty text without a newline gives its own stripped form as name |
| Fields.NameOfBlankFirstLine | resume_extractor.py:89 | a non-empty text whose first line is blank gives the empty name, not an absent one |
| Fields.Email | resume_extractor.py:92-93 | the email is absent iff no substring matches; otherwise it is the leftmost, longest match, contains `@` and has at least six characters |
| Fields.EmailNeedsAt | resume_extractor.py:92-93 | a text without `@` has no email |
| Fields.EmailOfWholeText | resume_extractor.py:92-93 | a text that matches the pattern in full is its own email |
| Fields.EmailExample | resume_extractor.py:92-93 | `jane.doe@example.com` is found in full |
| Fields.Phone | resume_extractor.py:96-97 | the phone is absent iff no substring matches; otherwise it is the leftmost, longest match and has at least ten characters |
| Fields.PhoneExample | resume_extractor.py:96-97 | `+1 555-123-4567` is found in full, with its plus sign |
| Fields.PhoneTooShort | resume_extractor.py:96-97 | the seven-digit number `555-1234` is not a phone |
| Fields.TaxonomyNoDuplicates | resume_extractor.py:101-102 | the skills taxonomy lists every skill once |
| Fields.SkillsFoundMeaning | resume_extractor.py:100-105 | the skills are a duplicate-free subsequence of the taxonomy, and an entry is among them iff it occurs as a case-insensitive whole word |
| Fields.ExtractSkills | resume_extractor.py:100-105 | the loop over the taxonomy appends exactly the mentioned entries, in taxonomy order |
| Fields.MentionsIgnoresCase | resume_extractor.py:104 | "python" in lower case counts as a mention of Python |
| Fields.MentionsNeedsWordEnd | resume_extractor.py:104 | "pythonic" does not mention Python |
| Fields.MentionsNeedsWholeWord | resume_extractor.py:104 | "JavaScript" does not mention Java |
| Sections.FirstWhere | resume_extractor.py:116 | the index of the first sentence that passes the test, or the length when none does |
| Sections.SpansTitles | resume_extractor.py:121-125 | the span titles are exactly the title sentences of the section, in order |
| Sections.SpanTitleIsTitle | resume_extractor.py:121-125 | every span's title passes the title test |
| Sections.SpansBodies | resume_extractor.py:126-129 | when the section has a title, the bodies together hold every other sentence exactly once, in order |
| Sections.SpanBodyNoTitle | resume_extractor.py:121-129 | no sentence of a body passes the title test |
| Sections.SectionAfterCons | resume_extractor.py:116-118 | the section after a first sentence is the rest when that sentence is a header, and the section of the rest otherwise |
| Experience.ScanExperienceSpans | resume_extractor.py:108-132 | the experience list is one record per span of the section after the first header: the span's role sentence, its last employer sentence or "", and its other sentences |
| Experience.RunSeeking | resume_extractor.py:112-129 | the loop, started before the header, builds the records of the spans after the first header |
| Experience.RunBeforeTitle | resume_extractor.py:120-129 | sentences before the first role sentence stay on the in-progress record, which the first title does not reset |
| Experience.RunWithTitle | resume_extractor.py:120-132 | with a titled record open, the rest of the loop and the final append emit the spans of the remaining sentences |
| Experience.ExperienceTitles | resume_extractor.py:121-125 | the record titles are exactly the role sentences of the section, in input order, so there are as many records as role sentences |
| Experience.ExperienceEntries | resume_extractor.py:121-129 | every record has a non-empty role sentence as title, a company that is "" or an employer sentence naming no role, and only sentences naming neither as points |
| Experience.ExperiencePoints | resume_extractor.py:126-129 | when the section has a role sentence, the points of all records are the section's sentences with neither keyword kind, in order |
| Experience.NoHeaderNoExperience | resume_extractor.py:116-118 | without a header sentence the experience list is empty |
| Experience.NoRoleNoExperience | resume_extractor.py:131-132 | a section without a role sentence gives no records; the untitled record is never emitted |
| Experience.RoleLineNotEmpty | resume_extractor.py:122 | a role sentence is never empty, so a titled record is always kept |
| Experience.ExtractExperience | resume_extractor.py:108-132 | the loop with its flag and in-progress record returns the scanned experience list |
| Experience.ExperienceExample | resume_extractor.py:108-132 | a resume with a name, a padded header, two roles, an employer and two points gives the two expected records |
| Experience.EmployerKeywordInsideWord | resume_extractor.py:126-127 | "at" inside "data" makes "Built data tools" the company rather than a point |
| Projects.ProjectsHeaderMeaning | resume_extractor.py:143 | the projects header test holds iff the lower-cased sentence contains "project" |
| Projects.HeadingNotEmpty | resume_extractor.py:148-149 | a heading is never empty, so a titled project is always kept |
| Projects.ScanProjectsSpans | resume_extractor.py:135-157 | the projects list is one project per span of the section after the first header: the span's heading and the sentences up to the next one |
| Projects.RunSeeking | resume_extractor.py:139-154 | the loop, started before the header, builds the projects of the spans after the first header |
| Projects.RunBeforeTitle | resume_extractor.py:147-154 | description sentences before the first heading stay on the in-progress project, which the first heading does not reset |
| Projects.RunWithTitle | resume_extractor.py:147-157 | with a titled project open, the rest of the loop and the final append emit the spans of the remaining sentences |
| Projects.ProjectsTitles | resume_extractor.py:148-152 | the project titles are exactly the headings of the section, in order, so there are as many projects as headings |
| Projects.ProjectEntries | resume_extractor.py:148-154 | every project title is a non-empty upper-case or title-case sentence, and no description sentence is one |
| Projects.ProjectsDescriptions | resume_extractor.py:153-154 | when the section has a heading, the descriptions together hold every other section sentence exactly once, in order |
| Projects.NoHeaderNoProjects | resume_extractor.py:143-145 | without a sentence mentioning a project the list is empty |
| Projects.NoHeadingNoProjects | resume_extractor.py:156-157 | a section without a heading gives no projects; the untitled project is never emitted |
| Projects.ExtractProjects | resume_extractor.py:135-157 | the loop with its flag and in-progress project returns the scanned projects list |
| Projects.ProjectsExample | resume_extractor.py:135-157 | an upper-case and a title-case heading, each followed by a description sentence, give the two expected projects |
| Extractor.ExtractInfo | resume_extractor.py:84-166 | the returned profile holds the name, email, phone, skills, experience and projects of the text and its sentences |
| Extractor.EmptyResume | resume_extractor.py:84-166 | empty text with no sentences gives no name, email or phone and empty lists |

## Left out

- Sentence segmentation by the spaCy model is not modelled. The sentences are an input
  sequence, and the model assumes nothing about how they relate to the text.
- Case is modelled on ASCII letters only. This covers `lower()`, `isupper()`, `istitle()` and
  the IGNORECASE comparison. Python's Unicode case rules (non-ASCII letters, title-case
  characters, the Kelvin sign under IGNORECASE) are left out.
- `\d` and `\w` are modelled as ASCII classes. Python's `str` patterns also accept non-ASCII
  digits and letters there.
- Whitespace for `strip()` is Python's full `str.isspace` set, so that part is exact.
- The records are immutable values. The program mutates a dictionary and then replaces it right
  after appending, so no aliasing is observable and none is modelled.
- PDF reading, the web page, the database, configuration and the generative-AI insights are
  outside `extract_info` and are not part of this model.
- The name is the stripped first line even when that line is blank. The program does not skip
  to the first non-empty line.
- Once a scanner is inside its section, a later sentence containing a header keyword is
  handled like any other section sentence. The model follows the program here.
- The employer test is a plain substring test, so "at" also matches inside words such as "data"
  or "that". The model follows the program here.
