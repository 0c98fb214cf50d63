/** The fixed messages shown for each selected area, and the fallback
    sentences shown when a list of areas is empty. */
module Feedback {
  import opened Features

  /** Advice for a curated feature chosen as an area to improve. */
  const ImprovementTips: map<Feature, string> := map[
    CodingSkillScore := "Improve coding skills through consistent practice.",
    InternshipsCount := "Gain more internship experience.",
    MockInterviewScore := "Practice mock interviews.",
    CommunicationSkillScore := "Work on communication skills.",
    AptitudeScore := "Strengthen aptitude preparation.",
    Cgpa := "Focus on improving academic consistency.",
    Backlogs := "Clearing backlogs will significantly improve readiness."
  ]

  /** Praise for a curated feature chosen as a strength. */
  const StrengthNotes: map<Feature, string> := map[
    CodingSkillScore := "Strong coding foundation.",
    InternshipsCount := "Good internship exposure.",
    MockInterviewScore := "Strong interview performance.",
    CommunicationSkillScore := "Good communication ability.",
    AptitudeScore := "Strong aptitude performance.",
    Cgpa := "Solid academic record.",
    Backlogs := "Minimal academic backlogs."
  ]

  const NoWeakAreas: string := "No major weak areas detected."
  const BalancedProfile: string := "Balanced profile."

  /** One column of the result: a bullet per selected area, or the fallback
      sentence when no area was selected. */
  datatype Section = Bullets(lines: seq<string>) | Fallback(text: string)

  /** Both tables have an entry for exactly the curated features. */
  lemma TablesCoverCurated()
    ensures forall f :: f in ImprovementTips <==> f in Curated
    ensures forall f :: f in StrengthNotes <==> f in Curated
  {
  }

  /** No two features share a message, and no message is a fallback sentence. */
  predicate Unambiguous(table: map<Feature, string>, fallback: string) {
    && (forall f, g :: f in table && g in table && table[f] == table[g] ==> f == g)
    && fallback !in table.Values
  }

  /** Length and last letter before the full stop: enough to tell the
      messages of one table and its fallback sentence apart. */
  function Signature(s: string): (nat, char) {
    (|s|, if |s| >= 2 then s[|s| - 2] else ' ')
  }

  lemma SignaturesTell(table: map<Feature, string>, fallback: string)
    requires forall f, g :: f in table && g in table && Signature(table[f]) == Signature(table[g]) ==> f == g
    requires forall f :: f in table ==> Signature(table[f]) != Signature(fallback)
    ensures Unambiguous(table, fallback)
  {
    forall f, g | f in table && g in table && table[f] == table[g] ensures f == g {
      assert Signature(table[f]) == Signature(table[g]);
    }
  }

  lemma TipsSignatures()
    ensures Signature(NoWeakAreas) == (29, 'd')
    ensures Signature(ImprovementTips[CodingSkillScore]) == (50, 'e')
    ensures Signature(ImprovementTips[InternshipsCount]) == (32, 'e')
    ensures Signature(ImprovementTips[MockInterviewScore]) == (25, 's')
    ensures Signature(ImprovementTips[CommunicationSkillScore]) == (29, 's')
    ensures Signature(ImprovementTips[AptitudeScore]) == (32, 'n')
    ensures Signature(ImprovementTips[Cgpa]) == (40, 'y')
    ensures Signature(ImprovementTips[Backlogs]) == (55, 's')
  {
  }

  lemma TipsUnambiguous()
    ensures Unambiguous(ImprovementTips, NoWeakAreas)
  {
    TipsSignatures();
    SignaturesTell(ImprovementTips, NoWeakAreas);
  }

  lemma NotesSignatures()
    ensures Signature(BalancedProfile) == (17, 'e')
    ensures Signature(StrengthNotes[CodingSkillScore]) == (25, 'n')
    ensures Signature(StrengthNotes[InternshipsCount]) == (25, 'e')
    ensures Signature(StrengthNotes[MockInterviewScore]) == (29, 'e')
    ensures Signature(StrengthNotes[CommunicationSkillScore]) == (27, 'y')
    ensures Signature(StrengthNotes[AptitudeScore]) == (28, 'e')
    ensures Signature(StrengthNotes[Cgpa]) == (22, 'd')
    ensures Signature(StrengthNotes[Backlogs]) == (26, 's')
  {
  }

  lemma NotesUnambiguous()
    ensures Unambiguous(StrengthNotes, BalancedProfile)
  {
    NotesSignatures();
    SignaturesTell(StrengthNotes, BalancedProfile);
  }

  lemma TablesUnambiguous()
    ensures Unambiguous(ImprovementTips, NoWeakAreas)
    ensures Unambiguous(StrengthNotes, BalancedProfile)
  {
    TipsUnambiguous();
    NotesUnambiguous();
  }

  /** The lines written for a list of selected areas. */
  function Render(picked: seq<Feature>, table: map<Feature, string>, fallback: string): (s: Section)
    requires forall f :: f in picked ==> f in table
    ensures s.Fallback? <==> picked == []
    ensures s.Fallback? ==> s.text == fallback
    ensures s.Bullets? ==> |s.lines| == |picked| && forall i :: 0 <= i < |picked| ==> s.lines[i] == table[picked[i]]
  {
    if picked == [] then Fallback(fallback)
    else Bullets(seq(|picked|, i requires 0 <= i < |picked| => table[picked[i]]))
  }

  /** With an unambiguous table the rendered section determines the selected
      areas and their order. */
  lemma RenderInjective(p: seq<Feature>, q: seq<Feature>, table: map<Feature, string>, fallback: string)
    requires forall f :: f in p ==> f in table
    requires forall f :: f in q ==> f in table
    requires Unambiguous(table, fallback)
    requires Render(p, table, fallback) == Render(q, table, fallback)
    ensures p == q
  {
    var s := Render(p, table, fallback);
    if s.Bullets? {
      assert |p| == |q|;
      forall i | 0 <= i < |p| ensures p[i] == q[i] {
        assert p[i] in p && q[i] in q;
        assert table[p[i]] == s.lines[i] == table[q[i]];
      }
    }
  }
}
