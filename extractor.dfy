/**
 * The whole extraction: the profile built from a resume's text and from the
 * sentences a segmenter found in it.
 */
module Extractor {
  import opened Seqs
  import opened PyStr
  import opened Fields
  import Sections
  import Experience
  import Projects

  /** The dictionary the extractor returns, one field per key. */
  datatype Profile = Profile(
    name: Option<string>,
    email: Option<string>,
    phone: Option<string>,
    skills: seq<string>,
    workExperience: seq<Experience.Job>,
    projects: seq<Projects.Project>)

  /** The profile of `text`, whose sentences are `sentences`. */
  function Info(text: string, sentences: seq<string>): Profile {
    Profile(
      Name(text), Email(text), Phone(text), SkillsFound(text),
      Experience.ScanExperience(sentences), Projects.ScanProjects(sentences))
  }

  /** The extraction as the program runs it: the field expressions, then the three loops. */
  method ExtractInfo(text: string, sentences: seq<string>) returns (p: Profile)
    ensures p == Info(text, sentences)
  {
    var name := if text != [] then Some(Strip(FirstLine(text))) else None;
    var email := Email(text);
    var phone := Phone(text);
    var skills := ExtractSkills(text);
    var experience := Experience.ExtractExperience(sentences);
    var projects := Projects.ExtractProjects(sentences);
    p := Profile(name, email, phone, skills, experience, projects);
  }

  /** Empty input gives an empty profile with no name. */
  lemma EmptyResume()
    ensures Info("", []) == Profile(None, None, None, [], [], [])
  {
    Experience.NoHeaderNoExperience([]);
    Projects.NoHeaderNoProjects([]);
    Sections.FilterNone(MentionedIn(""), Taxonomy);
  }
}
