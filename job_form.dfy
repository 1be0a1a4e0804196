/** The stand-alone HR job form: four fields, a skill tag list with its input
    box, a reset whenever the `job` it edits changes, and a submit that hands
    the fields to the caller. */
module JobForm {
  import opened Records
  import opened Seqs
  import Skills

  class JobForm {
    var title: string
    var department: string
    var salaryRange: string
    var skills: seq<string>
    var skillInput: string
    /** The `job` prop the form was last reset for (`None` when adding). */
    var job: Option<Record>

    /** Mounting runs the reset effect for the initial `job`. */
    constructor (job: Option<Record>)
      ensures this.job == job && skillInput == ""
      ensures job.Some? ==>
        (title == TextOr(job.value, "title", "") && department == TextOr(job.value, "department", "")
         && salaryRange == TextOr(job.value, "salaryRange", "") && skills == ListOr(job.value, "skills", []))
      ensures job.None? ==> title == "" && department == "" && salaryRange == "" && skills == []
    {
      title, department, salaryRange, skills, skillInput := "", "", "", [], "";
      this.job := None;
      new;
      Reset(job);
    }

    /** The effect on `[job]`: copy the job's fields, each missing one as
        empty, or empty every field when there is no job; the skill box is
        cleared either way. */
    method Reset(job: Option<Record>)
      modifies this
      ensures this.job == job && skillInput == ""
      ensures job.Some? ==>
        (title == TextOr(job.value, "title", "") && department == TextOr(job.value, "department", "")
         && salaryRange == TextOr(job.value, "salaryRange", "") && skills == ListOr(job.value, "skills", []))
      ensures job.None? ==> title == "" && department == "" && salaryRange == "" && skills == []
    {
      this.job := job;
      if job.Some? {
        title := TextOr(job.value, "title", "");
        department := TextOr(job.value, "department", "");
        salaryRange := TextOr(job.value, "salaryRange", "");
        skills := ListOr(job.value, "skills", []);
      } else {
        title := "";
        department := "";
        salaryRange := "";
        skills := [];
      }
      skillInput := "";
    }

    method SetSkillInput(value: string)
      modifies this`skillInput
      ensures skillInput == value
    {
      skillInput := value;
    }

    /** `handleAddSkill`: the trimmed input joins the list when it is new and
        non-empty, and the box is cleared whether or not it was accepted. */
    method HandleAddSkill()
      modifies this`skills, this`skillInput
      ensures skills == Skills.AddSkill(old(skills), old(skillInput))
      ensures skillInput == ""
      ensures NoDup(old(skills)) ==> NoDup(skills)
    {
      skills := Skills.AddSkill(skills, skillInput);
      skillInput := "";
    }

    /** `handleRemoveSkill`: every copy goes, the rest keep their order. */
    method HandleRemoveSkill(skillToRemove: string)
      modifies this`skills
      ensures skills == Without(old(skills), skillToRemove)
      ensures skillToRemove !in skills
    {
      WithoutContents(skills, skillToRemove);
      skills := Without(skills, skillToRemove);
    }

    /** `handleKeyDown`: Enter or a comma runs the add; other keys do nothing. */
    method HandleKeyDown(key: string)
      modifies this`skills, this`skillInput
      ensures key == "Enter" || key == "," ==>
        skills == Skills.AddSkill(old(skills), old(skillInput)) && skillInput == ""
      ensures !(key == "Enter" || key == ",") ==> skills == old(skills) && skillInput == old(skillInput)
    {
      if key == "Enter" || key == "," {
        HandleAddSkill();
      }
    }

    /** `handleSubmit`: the four fields exactly as held, untrimmed, and the job's id. */
    method HandleSubmit() returns (data: Record, id: Option<Value>)
      ensures data.Keys == {"title", "department", "salaryRange", "skills"}
      ensures data["title"] == Str(title) && data["department"] == Str(department)
      ensures data["salaryRange"] == Str(salaryRange) && data["skills"] == Strs(skills)
      ensures id == FieldOf(job, "id")
    {
      data := JobFields(title, department, salaryRange, skills);
      id := FieldOf(job, "id");
    }
  }
}
