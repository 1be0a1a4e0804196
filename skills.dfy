/** Skill lists as the applicant profile and the HR job forms keep them:
    the comma-separated codec (`split(',').map(s => s.trim()).filter(Boolean)`
    one way, `join` the other) and the tag-list editing shared by
    `addSkill`/`handleAddSkill` and `removeSkill`/`handleRemoveSkill`. */
module Skills {
  import opened Text
  import opened Seqs

  /** A skill the codec can carry unchanged: non-empty, trimmed, comma-free. */
  predicate IsCleanSkill(x: string) {
    x != "" && IsTrimmed(x) && ',' !in x
  }

  predicate AllClean(xs: seq<string>) {
    forall i :: 0 <= i < |xs| ==> IsCleanSkill(xs[i])
  }

  /** `.map(s => s.trim())` */
  function TrimAll(ps: seq<string>): (r: seq<string>)
    ensures |r| == |ps|
    ensures forall i :: 0 <= i < |ps| ==> r[i] == Trim(ps[i])
  {
    seq(|ps|, i requires 0 <= i < |ps| => Trim(ps[i]))
  }

  /** `.filter(Boolean)` on strings: the empty ones go, the rest keep their order. */
  function DropEmpty(ps: seq<string>): (r: seq<string>)
    ensures forall i :: 0 <= i < |r| ==> r[i] != "" && r[i] in ps
  {
    if ps == [] then []
    else if ps[0] == "" then DropEmpty(ps[1..])
    else [ps[0]] + DropEmpty(ps[1..])
  }

  lemma {:induction false} DropEmptyKeepsNonEmpty(ps: seq<string>)
    requires forall i :: 0 <= i < |ps| ==> ps[i] != ""
    ensures DropEmpty(ps) == ps
  {
    if ps != [] {
      DropEmptyKeepsNonEmpty(ps[1..]);
    }
  }

  /** Parsing a comma-separated skill line: the pieces between commas,
      trimmed, empty ones dropped. Whatever comes out is clean. */
  function Parse(line: string): (r: seq<string>)
    ensures AllClean(r)
  {
    var pieces := Split(line);
    var trimmed := TrimAll(pieces);
    var r := DropEmpty(trimmed);
    forall i | 0 <= i < |r| ensures IsCleanSkill(r[i]) {
      var k :| 0 <= k < |trimmed| && trimmed[k] == r[i];
      assert ',' !in pieces[k];
      TrimKeepsChar(pieces[k], ',');
    }
    r
  }

  /** The empty line holds no skills. */
  lemma ParseEmpty()
    ensures Parse("") == []
  {
    assert Split("") == [""];
    assert TrimAll([""]) == [""];
  }

  /** Round trip through the `','` form: a clean list survives join-then-parse. */
  lemma ParseJoinComma(xs: seq<string>)
    requires AllClean(xs)
    ensures Parse(Join(xs, ",")) == xs
  {
    if xs == [] {
      ParseEmpty();
    } else {
      SplitJoin(xs);
      forall i | 0 <= i < |xs| ensures Trim(xs[i]) == xs[i] {
        TrimFixedPoint(xs[i]);
      }
      assert TrimAll(xs) == xs;
      DropEmptyKeepsNonEmpty(xs);
    }
  }

  /** Round trip through the `', '` form used to prefill the job editor. */
  lemma ParseJoinCommaBlank(xs: seq<string>)
    requires AllClean(xs)
    ensures Parse(Join(xs, ", ")) == xs
  {
    if xs == [] {
      ParseEmpty();
    } else {
      var pieces := [xs[0]] + Blanked(xs[1..]);
      JoinCommaBlank(xs);
      SplitJoin(pieces);
      forall i | 0 <= i < |xs| ensures Trim(pieces[i]) == xs[i] {
        if i == 0 {
          TrimFixedPoint(xs[0]);
        } else {
          assert pieces[i] == " " + xs[i];
          TrimLeadingBlank(xs[i]);
        }
      }
      assert TrimAll(pieces) == xs;
      DropEmptyKeepsNonEmpty(xs);
    }
  }

  /** Parsing is canonical: re-serialising a parsed line and parsing again changes nothing. */
  lemma ParseIdempotent(line: string)
    ensures Parse(Join(Parse(line), ",")) == Parse(line)
  {
    ParseJoinComma(Parse(line));
  }

  /** The comma-free condition of the round trip cannot be dropped: a skill
      holding a comma comes back as two. */
  lemma CommaSkillSplitsOnReload()
    ensures Parse(Join(["a,b"], ",")) == ["a", "b"]
  {
    assert Join(["a,b"], ",") == "a,b";
    assert Join(["a", "b"], ",") == "a" + "," + "b" == "a,b";
    assert AllClean(["a", "b"]);
    ParseJoinComma(["a", "b"]);
  }

  /** `addSkill(input)`: the trimmed input is appended exactly when it is
      non-empty and not yet in the list; otherwise the list is unchanged,
      even when it already holds duplicates. The old list
      stays a prefix, the only possible new member is the trimmed input, and
      no duplicate is ever introduced. */
  function AddSkill(skills: seq<string>, input: string): (r: seq<string>)
    ensures Trim(input) != "" && Trim(input) !in skills ==> r == skills + [Trim(input)]
    ensures Trim(input) == "" || Trim(input) in skills ==> r == skills
    ensures |skills| <= |r| <= |skills| + 1 && r[..|skills|] == skills
    ensures forall x :: x in r <==> x in skills || (x == Trim(input) && x != "")
    ensures NoDup(skills) ==> NoDup(r)
    ensures IsTrimmed(input) && input != "" ==> input in r
  {
    var t := Trim(input);
    if t != "" && t !in skills then
      TrimFixedPoint(input);
      skills + [t]
    else
      TrimFixedPoint(input);
      skills
  }

  /** Adding the same text twice is the same as adding it once. */
  lemma AddSkillIdempotent(skills: seq<string>, input: string)
    ensures AddSkill(AddSkill(skills, input), input) == AddSkill(skills, input)
  {
  }

  /** An accepted skill is removed again by `removeSkill`, restoring the list exactly. */
  lemma AddThenRemove(skills: seq<string>, input: string)
    requires Trim(input) != "" && Trim(input) !in skills
    ensures Without(AddSkill(skills, input), Trim(input)) == skills
  {
    var t := Trim(input);
    WithoutConcat(skills, [t], t);
    WithoutAbsent(skills, t);
  }

  /** Removing keeps the list clean and duplicate-free when it was. */
  lemma RemoveKeepsInvariants(skills: seq<string>, x: string)
    requires NoDup(skills) && AllClean(skills)
    ensures NoDup(Without(skills, x)) && AllClean(Without(skills, x))
  {
    WithoutNoDup(skills, x);
    WithoutContents(skills, x);
    var r := Without(skills, x);
    forall i | 0 <= i < |r| ensures IsCleanSkill(r[i]) {
      assert r[i] in skills;
    }
  }
}
