/** The applicant's profile card: the skill list it starts from, the tag
    editor (`addSkill`, `removeSkill`, `handleKeyDown`) and the profile fields
    `handleSave` writes, skills serialised as one comma-separated string. */
module ApplicantDashboard {
  import opened Records
  import opened Seqs
  import opened Text
  import Skills

  /** The skill list the dashboard starts from, given the stored `skills`
      field: an array is taken as it is, a string is parsed as a
      comma-separated line, and anything else (missing, a number) gives no skills. */
  function InitialSkills(stored: Option<Value>): (r: seq<string>)
    ensures stored.Some? && stored.value.Strs? ==> r == stored.value.items
    ensures stored.Some? && stored.value.Str? ==> Skills.AllClean(r)
    ensures stored.None? || stored.value.Num? ==> r == []
  {
    match stored
    case Some(Strs(items)) => items
    case Some(Str(line)) => Skills.Parse(line)
    case _ => []
  }

  /** The stored form of the skill list: `skills.join(',')`. */
  function SerializeSkills(skills: seq<string>): string {
    Join(skills, ",")
  }

  /** What `handleSave` writes comes back unchanged the next time the
      dashboard starts, provided every skill is non-empty, trimmed and comma-free. */
  lemma SavedSkillsReload(skills: seq<string>)
    requires Skills.AllClean(skills)
    ensures InitialSkills(Some(Str(SerializeSkills(skills)))) == skills
  {
    Skills.ParseJoinComma(skills);
  }

  /** A stored line is normalised on the first load; saving and loading again changes nothing more. */
  lemma ReloadIsStable(line: string)
    ensures InitialSkills(Some(Str(SerializeSkills(InitialSkills(Some(Str(line))))))) == InitialSkills(Some(Str(line)))
  {
    Skills.ParseIdempotent(line);
  }

  /** The editable state of the profile card. */
  class ProfileEditor {
    var email: string
    var contactNumber: string
    var gender: string
    var skills: seq<string>
    /** The text typed into the skill box. */
    var input: string
    var error: string

    /** `initial` is the stored profile; an absent profile is the empty record. */
    constructor (initial: Record)
      ensures email == TextOr(initial, "email", "")
      ensures contactNumber == TextOr(initial, "contactNumber", "")
      ensures gender == TextOr(initial, "gender", "")
      ensures skills == InitialSkills(if "skills" in initial then Some(initial["skills"]) else None)
      ensures input == "" && error == ""
    {
      email := TextOr(initial, "email", "");
      contactNumber := TextOr(initial, "contactNumber", "");
      gender := TextOr(initial, "gender", "");
      skills := InitialSkills(if "skills" in initial then Some(initial["skills"]) else None);
      input := "";
      error := "";
    }

    /** `addSkill(skill)` */
    method AddSkill(skill: string)
      modifies this`skills
      ensures skills == Skills.AddSkill(old(skills), skill)
      ensures NoDup(old(skills)) ==> NoDup(skills)
    {
      skills := Skills.AddSkill(skills, skill);
    }

    /** `removeSkill(skillToRemove)` */
    method RemoveSkill(skillToRemove: string)
      modifies this`skills
      ensures skills == Without(old(skills), skillToRemove)
      ensures skillToRemove !in skills
    {
      WithoutContents(skills, skillToRemove);
      skills := Without(skills, skillToRemove);
    }

    /** Typing into the skill box. */
    method SetInput(value: string)
      modifies this`input
      ensures input == value
    {
      input := value;
    }

    /** `handleKeyDown`: Enter or a comma adds the typed text and clears the
        box; any other key leaves both alone. */
    method HandleKeyDown(key: string)
      modifies this`skills, this`input
      ensures key == "Enter" || key == "," ==>
        skills == Skills.AddSkill(old(skills), old(input)) && input == ""
      ensures !(key == "Enter" || key == ",") ==> skills == old(skills) && input == old(input)
    {
      if key == "Enter" || key == "," {
        AddSkill(input);
        input := "";
      }
    }

    /** The fields `handleSave` sends to `applicants/{uid}`. */
    function SavePayload(): (p: Record)
      reads this
      ensures p.Keys == {"email", "contactNumber", "gender", "skills"}
      ensures p["email"] == Str(email) && p["contactNumber"] == Str(contactNumber)
      ensures p["gender"] == Str(gender) && p["skills"] == Str(SerializeSkills(skills))
    {
      map["email" := Str(email), "contactNumber" := Str(contactNumber),
          "gender" := Str(gender), "skills" := Str(SerializeSkills(skills))]
    }

    /** `handleSave`: nothing without a signed-in user; otherwise the payload
        is written and the error line is cleared, or set when the write fails. */
    method Save(signedIn: bool, writeOk: bool) returns (sent: Option<Record>)
      modifies this`error
      ensures sent == if signedIn then Some(SavePayload()) else None
      ensures error == if !signedIn then old(error) else if writeOk then "" else "Failed to update profile"
    {
      if !signedIn {
        return None;
      }
      error := "";
      sent := Some(SavePayload());
      if !writeOk {
        error := "Failed to update profile";
      }
    }
  }
}
