/**
  The pure part of the session: derivation tasks, the single-task prompt
  template, the keyed prompt and approval updates, and the combined prompt
  built from the approved tasks.
 */
module Tasks {
  import opened Wrappers
  import opened Text

  /** One row of the ingested specification (its `type` column plays no part);
      `labelText` is the row's `label` (a reserved word in Dafny). */
  datatype SpecRow = SpecRow(id: int, variable: string, labelText: string, derivation: string)

  datatype DerivationTask = DerivationTask(
    id: int,
    variable: string,
    labelText: string,
    derivation: string,
    prompt: string,
    isApproved: bool)

  const SinglePrefix: string := "Derive the variable \""
  const SingleMiddle: string := "\" using the following logic: "
  const SingleSuffix: string := ". The new column should be added to the data frame."

  /** `createSinglePrompt`: the instruction seeded for one task. */
  function CreateSinglePrompt(variable: string, derivation: string): (r: string)
    ensures |r| == |SinglePrefix| + |variable| + |SingleMiddle| + |derivation| + |SingleSuffix|
    ensures r[..|SinglePrefix|] == SinglePrefix
    ensures r[|SinglePrefix|..|SinglePrefix| + |variable|] == variable
    ensures r[|SinglePrefix| + |variable|..|SinglePrefix| + |variable| + |SingleMiddle|] == SingleMiddle
    ensures r[|r| - |SingleSuffix| - |derivation|..|r| - |SingleSuffix|] == derivation
    ensures EndsWith(r, SingleSuffix)
  {
    SinglePrefix + variable + SingleMiddle + derivation + SingleSuffix
  }

  /**
    The template keeps both of its parts recoverable: two prompts are equal only
    for the same variable and derivation, as long as the variable names hold no
    double quote (the character that closes the variable in the template).
   */
  lemma SinglePromptInjective(v1: string, d1: string, v2: string, d2: string)
    requires '"' !in v1 && '"' !in v2
    requires CreateSinglePrompt(v1, d1) == CreateSinglePrompt(v2, d2)
    ensures v1 == v2 && d1 == d2
  {
    var r1, r2 := CreateSinglePrompt(v1, d1), CreateSinglePrompt(v2, d2);
    var p := |SinglePrefix|;
    // The variable ends at the first double quote after the prefix.
    QuoteClosesVariable(v1, d1);
    QuoteClosesVariable(v2, d2);
    assert |v1| == |v2|;
    assert v1 == r1[p..p + |v1|] == r2[p..p + |v2|] == v2;
    var q := p + |v1| + |SingleMiddle|;
    assert d1 == r1[q..q + |d1|] == r2[q..q + |d2|] == d2;
  }

  /** After the prefix, the first double quote of a single prompt is the one that closes the variable. */
  lemma QuoteClosesVariable(v: string, d: string)
    requires '"' !in v
    ensures forall k :: |SinglePrefix| <= k < |SinglePrefix| + |v| ==> CreateSinglePrompt(v, d)[k] != '"'
    ensures CreateSinglePrompt(v, d)[|SinglePrefix| + |v|] == '"'
  {
    var r := CreateSinglePrompt(v, d);
    forall k | |SinglePrefix| <= k < |SinglePrefix| + |v| ensures r[k] != '"' {
      assert r[k] == v[k - |SinglePrefix|];
    }
  }

  /** The task a spec row becomes on ingest: seeded prompt, not approved. */
  function TaskFromRow(row: SpecRow): (t: DerivationTask)
    ensures t.id == row.id && t.variable == row.variable && t.labelText == row.labelText
    ensures t.derivation == row.derivation
    ensures t.prompt == CreateSinglePrompt(row.variable, row.derivation) && !t.isApproved
  {
    DerivationTask(row.id, row.variable, row.labelText, row.derivation,
                   CreateSinglePrompt(row.variable, row.derivation), false)
  }

  /** The task list `handleFileChange` builds from the rows, one task per row in order. */
  function IngestRows(rows: seq<SpecRow>): (tasks: seq<DerivationTask>)
    ensures |tasks| == |rows|
    ensures forall i :: 0 <= i < |rows| ==>
      && tasks[i].id == rows[i].id
      && tasks[i].variable == rows[i].variable
      && tasks[i].labelText == rows[i].labelText
      && tasks[i].derivation == rows[i].derivation
      && tasks[i].prompt == CreateSinglePrompt(rows[i].variable, rows[i].derivation)
      && !tasks[i].isApproved
  {
    seq(|rows|, i requires 0 <= i < |rows| => TaskFromRow(rows[i]))
  }

  /** `handlePromptChange`: every task with the id gets the new prompt. */
  function UpdatePrompt(tasks: seq<DerivationTask>, id: int, newPrompt: string): (r: seq<DerivationTask>)
    ensures |r| == |tasks|
    ensures forall i :: 0 <= i < |tasks| && tasks[i].id == id ==> r[i] == tasks[i].(prompt := newPrompt)
    ensures forall i :: 0 <= i < |tasks| && tasks[i].id != id ==> r[i] == tasks[i]
  {
    seq(|tasks|, i requires 0 <= i < |tasks| =>
      if tasks[i].id == id then tasks[i].(prompt := newPrompt) else tasks[i])
  }

  /** An edit for an id no task carries leaves the list as it was. */
  lemma UpdatePromptUnknownId(tasks: seq<DerivationTask>, id: int, newPrompt: string)
    requires forall i :: 0 <= i < |tasks| ==> tasks[i].id != id
    ensures UpdatePrompt(tasks, id, newPrompt) == tasks
  {
  }

  /** Of two edits of the same task the later one wins. */
  lemma UpdatePromptLastWins(tasks: seq<DerivationTask>, id: int, p1: string, p2: string)
    ensures UpdatePrompt(UpdatePrompt(tasks, id, p1), id, p2) == UpdatePrompt(tasks, id, p2)
  {
  }

  /** `handleApproveToggle`'s list update: the tasks with the id change approval. */
  function ToggleApproval(tasks: seq<DerivationTask>, id: int): (r: seq<DerivationTask>)
    ensures |r| == |tasks|
    ensures forall i :: 0 <= i < |tasks| && tasks[i].id == id ==> r[i] == tasks[i].(isApproved := !tasks[i].isApproved)
    ensures forall i :: 0 <= i < |tasks| && tasks[i].id != id ==> r[i] == tasks[i]
  {
    seq(|tasks|, i requires 0 <= i < |tasks| =>
      if tasks[i].id == id then tasks[i].(isApproved := !tasks[i].isApproved) else tasks[i])
  }

  /** Toggling the same id twice restores the list. */
  lemma ToggleInvolution(tasks: seq<DerivationTask>, id: int)
    ensures ToggleApproval(ToggleApproval(tasks, id), id) == tasks
  {
  }

  /** `Array.prototype.find` by id: the first task carrying it. */
  function FindById(tasks: seq<DerivationTask>, id: int): (r: Option<DerivationTask>)
    ensures r.None? <==> forall i :: 0 <= i < |tasks| ==> tasks[i].id != id
    ensures r.Some? ==> exists i :: (0 <= i < |tasks| && tasks[i] == r.value && r.value.id == id &&
      forall j :: 0 <= j < i ==> tasks[j].id != id)
  {
    if tasks == [] then None
    else if tasks[0].id == id then Some(tasks[0])
    else
      var r := FindById(tasks[1..], id);
      assert r.Some? ==> exists i :: (0 <= i < |tasks[1..]| && tasks[1..][i] == r.value && r.value.id == id &&
        forall j :: 0 <= j < i ==> tasks[1..][j].id != id);
      r
  }

  /** Some task is approved. */
  predicate HasApproved(tasks: seq<DerivationTask>) {
    exists i :: 0 <= i < |tasks| && tasks[i].isApproved
  }

  /** `tasks.filter(task => task.isApproved)`. */
  function Approved(tasks: seq<DerivationTask>): (r: seq<DerivationTask>)
    ensures |r| <= |tasks|
    ensures forall j :: 0 <= j < |r| ==> r[j].isApproved
    decreases |tasks|
  {
    if tasks == [] then []
    else
      var last := tasks[|tasks| - 1];
      Approved(tasks[..|tasks| - 1]) + (if last.isApproved then [last] else [])
  }

  /** The positions of the approved tasks, in increasing order. */
  function ApprovedIndices(tasks: seq<DerivationTask>): (r: seq<nat>)
    ensures forall j :: 0 <= j < |r| ==> r[j] < |tasks|
    decreases |tasks|
  {
    if tasks == [] then []
    else
      var n := |tasks| - 1;
      ApprovedIndices(tasks[..n]) + (if tasks[n].isApproved then [n] else [])
  }

  /**
    The filter keeps exactly the approved tasks in their original relative
    order: its j-th entry is the task at the j-th approved position, the
    positions increase, and a position is listed iff its task is approved.
   */
  lemma {:induction false} ApprovedIsOrderedSubsequence(tasks: seq<DerivationTask>)
    ensures |ApprovedIndices(tasks)| == |Approved(tasks)|
    ensures forall j :: 0 <= j < |Approved(tasks)| ==> Approved(tasks)[j] == tasks[ApprovedIndices(tasks)[j]]
    ensures forall j, k :: 0 <= j < k < |ApprovedIndices(tasks)| ==> ApprovedIndices(tasks)[j] < ApprovedIndices(tasks)[k]
    ensures forall i :: 0 <= i < |tasks| ==> (tasks[i].isApproved <==> i in ApprovedIndices(tasks))
    decreases |tasks|
  {
    if tasks != [] {
      var n := |tasks| - 1;
      var init := tasks[..n];
      ApprovedIsOrderedSubsequence(init);
      var ix, ii := ApprovedIndices(tasks), ApprovedIndices(init);
      var ax, ai := Approved(tasks), Approved(init);
      assert ix == ii + (if tasks[n].isApproved then [n] else []);
      assert ax == ai + (if tasks[n].isApproved then [tasks[n]] else []);
      forall j | 0 <= j < |ax| ensures ax[j] == tasks[ix[j]] {
        if j < |ai| {
          assert ax[j] == ai[j] && ix[j] == ii[j];
          assert init[ii[j]] == tasks[ii[j]];
        }
      }
      forall i | 0 <= i < |tasks| ensures tasks[i].isApproved <==> i in ix {
        if i < n {
          assert tasks[i] == init[i];
          assert i in ii <==> i in ix;
        }
      }
    }
  }

  /** With no approved task the filter is empty, and conversely. */
  lemma ApprovedEmptyIff(tasks: seq<DerivationTask>)
    ensures Approved(tasks) == [] <==> !HasApproved(tasks)
  {
    ApprovedIsOrderedSubsequence(tasks);
    if HasApproved(tasks) {
      var i :| 0 <= i < |tasks| && tasks[i].isApproved;
      assert i in ApprovedIndices(tasks);
    }
  }

  /** `.map((task, index) => `${index + 1}. ${task.prompt}`)`. */
  function NumberedLines(approved: seq<DerivationTask>): (lines: seq<string>)
    ensures |lines| == |approved|
  {
    seq(|approved|, k requires 0 <= k < |approved| => NatToString(k + 1) + ". " + approved[k].prompt)
  }

  /** The fixed text `createFinalPrompt` puts before and after the numbered list. */
  datatype PromptTemplate = PromptTemplate(prefix: string, suffix: string)

  /** The template text of `createFinalPrompt`. */
  const FinalTemplate: PromptTemplate := PromptTemplate(FinalPrefix, FinalSuffix)

  const FinalPrefix: string :=
    "\nYou are an expert R programmer specializing in clinical trial data analysis and CDISC standards for SDTM and ADAM datasets.\n"
    + "\nYour task is to generate a single R script that performs a series of derivations to create an ADAM dataset.\n"
    + "\nBase Data:\n"
    + "First, create a sample R data frame that serves as a realistic input. It should be a tibble named 'source_data' and must contain the following columns with at least 10 rows of data:\n"
    + "- USUBJID (character, e.g., 'SUBJ-001')\n"
    + "- AESEV (character, one of 'MILD', 'MODERATE', 'SEVERE')\n"
    + "- AESTDTC (character, ISO 8601 date, e.g., '2023-01-10')\n"
    + "- AEENDTC (character, ISO 8601 date, e.g., '2023-01-15')\n"
    + "- AGE (numeric, e.g., 25)\n"
    + "\nDerivations:\n"
    + "Using the 'source_data' frame, perform the following derivations sequentially. Use 'tidyverse' (dplyr) syntax, preferably within a single pipe chain.\n"
    + "\n"

  const FinalSuffix: string :=
    "\n\nFinal Output:\n"
    + "The final transformed data frame should be assigned to a variable named 'ADAE'.\n"
    + "Ensure the code is clean, well-commented, and ready to execute.\n"
    + "Finally, print the head of the 'ADAE' dataframe to verify the output.\n"

  /**
    The numbered approved prompts inside a template, or "" when the list is
    empty; `createFinalPrompt` is this with `FinalTemplate`.
   */
  function CombinedPrompt(template: PromptTemplate, tasks: seq<DerivationTask>): (r: string)
    ensures r == "" <==> !HasApproved(tasks)
    ensures r != "" ==> IsCombinedPrompt(template, r)
  {
    ApprovedListEmptyIff(tasks);
    var approvedPrompts := Join(NumberedLines(Approved(tasks)), "\n");
    if approvedPrompts == "" then "" else template.prefix + approvedPrompts + template.suffix
  }

  /** `createFinalPrompt`. */
  function CreateFinalPrompt(tasks: seq<DerivationTask>): (r: string)
    ensures r == "" <==> !HasApproved(tasks)
    ensures r != "" ==> IsCombinedPrompt(FinalTemplate, r)
  {
    CombinedPrompt(FinalTemplate, tasks)
  }

  /** The string has the shape of a combined prompt: the template around a non-empty list. */
  ghost predicate IsCombinedPrompt(template: PromptTemplate, s: string) {
    exists list: string :: list != "" && s == template.prefix + list + template.suffix
  }

  /** The list embedded in the combined prompt is non-empty iff some task is approved. */
  lemma ApprovedListEmptyIff(tasks: seq<DerivationTask>)
    ensures Join(NumberedLines(Approved(tasks)), "\n") == "" <==> !HasApproved(tasks)
  {
    ApprovedEmptyIff(tasks);
    var lines := NumberedLines(Approved(tasks));
    if lines != [] {
      assert |lines[0]| > 0;
    }
  }

  /**
    The combined prompt is empty iff no task is approved; otherwise it is the
    template around the numbered list of the approved prompts.
   */
  lemma FinalPromptContents(template: PromptTemplate, tasks: seq<DerivationTask>)
    ensures CombinedPrompt(template, tasks) == "" <==> !HasApproved(tasks)
    ensures HasApproved(tasks) ==>
      CombinedPrompt(template, tasks) == template.prefix + Join(NumberedLines(Approved(tasks)), "\n") + template.suffix
  {
    ApprovedListEmptyIff(tasks);
  }

  /** Every non-empty combined prompt has the template's shape. */
  lemma FinalPromptShape(template: PromptTemplate, tasks: seq<DerivationTask>)
    requires CombinedPrompt(template, tasks) != ""
    ensures IsCombinedPrompt(template, CombinedPrompt(template, tasks))
  {
    var list := Join(NumberedLines(Approved(tasks)), "\n");
    assert list != "" && CombinedPrompt(template, tasks) == template.prefix + list + template.suffix;
  }

  /**
    `createFinalPrompt` itself: "" iff no task is approved, otherwise the
    template text of `App.tsx` around the numbered list of approved prompts.
   */
  lemma CreateFinalPromptContents(tasks: seq<DerivationTask>)
    ensures CreateFinalPrompt(tasks) == "" <==> !HasApproved(tasks)
    ensures HasApproved(tasks) ==>
      CreateFinalPrompt(tasks) == FinalPrefix + Join(NumberedLines(Approved(tasks)), "\n") + FinalSuffix
  {
    FinalPromptContents(FinalTemplate, tasks);
  }

  /** The k-th line of the list (k from 1) is "k. " followed by the k-th approved prompt. */
  lemma NumberedLineAt(tasks: seq<DerivationTask>, k: nat)
    requires 1 <= k <= |Approved(tasks)|
    ensures NumberedLines(Approved(tasks))[k - 1] == NatToString(k) + ". " + Approved(tasks)[k - 1].prompt
  {
  }

  /** Ingested tasks are all unapproved, so the combined prompt of a fresh list is empty. */
  lemma IngestApprovesNothing(template: PromptTemplate, rows: seq<SpecRow>)
    ensures !HasApproved(IngestRows(rows))
    ensures CombinedPrompt(template, IngestRows(rows)) == ""
  {
    FinalPromptContents(template, IngestRows(rows));
  }

  /** Editing a prompt never changes which tasks are approved. */
  lemma UpdatePromptKeepsApproval(tasks: seq<DerivationTask>, id: int, newPrompt: string)
    ensures ApprovedIndices(UpdatePrompt(tasks, id, newPrompt)) == ApprovedIndices(tasks)
    ensures HasApproved(UpdatePrompt(tasks, id, newPrompt)) == HasApproved(tasks)
  {
    var r := UpdatePrompt(tasks, id, newPrompt);
    ApprovedIsOrderedSubsequence(tasks);
    ApprovedIsOrderedSubsequence(r);
    IndicesDetermined(tasks, r);
  }

  /** The approved positions depend only on the approval flags. */
  lemma {:induction false} IndicesDetermined(a: seq<DerivationTask>, b: seq<DerivationTask>)
    requires |a| == |b|
    requires forall i :: 0 <= i < |a| ==> a[i].isApproved == b[i].isApproved
    ensures ApprovedIndices(a) == ApprovedIndices(b)
    decreases |a|
  {
    if a != [] {
      IndicesDetermined(a[..|a| - 1], b[..|b| - 1]);
    }
  }

  /**
    Three tasks of which only the second is approved: the combined prompt
    holds one numbered entry, the second task's prompt.
   */
  lemma OnlySecondApproved(template: PromptTemplate, t1: DerivationTask, t2: DerivationTask, t3: DerivationTask)
    requires !t1.isApproved && t2.isApproved && !t3.isApproved
    ensures CombinedPrompt(template, [t1, t2, t3]) == template.prefix + "1. " + t2.prompt + template.suffix
  {
    var ts := [t1, t2, t3];
    assert ts[..2] == [t1, t2];
    assert [t1, t2][..1] == [t1];
    assert [t1][..0] == [];
    assert Approved([t1]) == [];
    assert Approved([t1, t2]) == [t2];
    assert Approved(ts) == [t2];
    assert NatToString(1) == "1";
    assert NumberedLines([t2])[0] == NatToString(1) + ". " + t2.prompt;
    assert "1" + ". " == "1. ";
    assert NumberedLines([t2]) == ["1. " + t2.prompt];
    FinalPromptContents(template, ts);
  }
}
