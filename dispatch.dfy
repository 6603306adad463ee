/**
 * The task classifier `process_task` (app.py): the lower-cased description is
 * checked for three keyword pairs in a fixed order and the first pair that
 * is fully present names the task; otherwise the description is unknown
 * (`process_task` raises `ValueError("Unknown task description")`).
 */
module Dispatch {
  import opened Text

  datatype Task = Format | CountWednesdays | SortContacts | Unknown

  /** The description, once lower-cased, contains the keyword `w` as a substring. */
  ghost predicate Mentions(task: string, w: string)
  {
    exists i :: OccursAt(Lower(task), w, i)
  }

  /** The description mentions both keywords of a pair. */
  ghost predicate MentionsBoth(task: string, w1: string, w2: string)
  {
    Mentions(task, w1) && Mentions(task, w2)
  }

  /** `process_task`'s choice of handler. */
  function Classify(task: string): (t: Task)
    ensures t == Format <==> MentionsBoth(task, "format", "prettier")
    ensures t == CountWednesdays <==>
              !MentionsBoth(task, "format", "prettier") && MentionsBoth(task, "count", "wednesdays")
    ensures t == SortContacts <==>
              && !MentionsBoth(task, "format", "prettier")
              && !MentionsBoth(task, "count", "wednesdays")
              && MentionsBoth(task, "sort", "contacts")
    ensures t == Unknown <==>
              && !MentionsBoth(task, "format", "prettier")
              && !MentionsBoth(task, "count", "wednesdays")
              && !MentionsBoth(task, "sort", "contacts")
  {
    var l := Lower(task);
    if Contains(l, "format") && Contains(l, "prettier") then Format
    else if Contains(l, "count") && Contains(l, "wednesdays") then CountWednesdays
    else if Contains(l, "sort") && Contains(l, "contacts") then SortContacts
    else Unknown
  }

  /** The formatting pair wins whatever other keywords the description carries. */
  lemma FormatWins(task: string, extra: string)
    requires MentionsBoth(task, "format", "prettier")
    ensures Classify(task) == Format
    ensures Classify(task + extra) == Format
    ensures Classify(extra + task) == Format
  {
    MentionsExtends(task, extra, "format");
    MentionsExtends(task, extra, "prettier");
  }

  /** A keyword found in a description is still found after more text is put before or after it. */
  lemma MentionsExtends(task: string, extra: string, w: string)
    requires Mentions(task, w)
    ensures Mentions(task + extra, w) && Mentions(extra + task, w)
  {
    var i :| OccursAt(Lower(task), w, i);
    LowerConcat(task, extra);
    LowerConcat(extra, task);
    assert Lower(task + extra)[i..i + |w|] == Lower(task)[i..i + |w|];
    assert OccursAt(Lower(task + extra), w, i);
    var j := |extra| + i;
    assert Lower(extra + task)[j..j + |w|] == Lower(task)[i..i + |w|];
    assert OccursAt(Lower(extra + task), w, j);
  }

  lemma LowerConcat(a: string, b: string)
    ensures Lower(a + b) == Lower(a) + Lower(b)
  {
  }

  /** Classification ignores letter case: two descriptions that lower-case alike are classified alike. */
  lemma ClassifyIgnoresCase(t1: string, t2: string)
    requires Lower(t1) == Lower(t2)
    ensures Classify(t1) == Classify(t2)
  {
  }

  /** In particular a description and its lower-cased form are classified alike. */
  lemma ClassifyLowered(task: string)
    ensures Classify(Lower(task)) == Classify(task)
  {
    LowerIdempotent(task);
    ClassifyIgnoresCase(Lower(task), task);
  }

  /** A keyword whose first letter the lower-cased description lacks is not mentioned. */
  lemma NotMentioned(task: string, w: string)
    requires w != []
    requires forall k :: 0 <= k < |task| ==> LowerChar(task[k]) != w[0]
    ensures !Mentions(task, w)
  {
    forall i | 0 <= i && i + |w| <= |task| ensures !OccursAt(Lower(task), w, i) {
      assert Lower(task)[i..i + |w|][0] == LowerChar(task[i]);
    }
  }

  /** A keyword that the description spells out, in any case, at position `i` is mentioned. */
  lemma MentionedAt(task: string, w: string, i: nat)
    requires i + |w| <= |task|
    requires forall k :: 0 <= k < |w| ==> LowerChar(task[i + k]) == w[k]
    ensures Mentions(task, w)
  {
    assert OccursAt(Lower(task), w, i);
  }

  /** Keywords are matched as plain substrings, in any case and order. */
  lemma ExampleFormat()
    ensures Classify("Run PRETTIER to format") == Format
  {
    MentionedAt("Run PRETTIER to format", "prettier", 4);
    MentionedAt("Run PRETTIER to format", "format", 16);
  }

  /** The formatting pair takes priority over the other two. */
  lemma ExamplePriority()
    ensures Classify("count wednesdays, format with prettier") == Format
  {
    MentionedAt("count wednesdays, format with prettier", "format", 18);
    MentionedAt("count wednesdays, format with prettier", "prettier", 30);
  }

  /** "sort" inside "resort" counts: matching is by substring, not by word. */
  lemma ExampleSubstring()
    ensures Classify("Resort contacts") == SortContacts
  {
    MentionedAt("Resort contacts", "sort", 2);
    MentionedAt("Resort contacts", "contacts", 7);
    NotMentioned("Resort contacts", "format");
    NotMentioned("Resort contacts", "wednesdays");
  }

  lemma ExampleCount()
    ensures Classify("Count Wednesdays") == CountWednesdays
  {
    MentionedAt("Count Wednesdays", "count", 0);
    MentionedAt("Count Wednesdays", "wednesdays", 6);
    NotMentioned("Count Wednesdays", "format");
  }

  /** One keyword of a pair is not enough. */
  lemma ExampleUnknown()
    ensures Classify("Format it") == Unknown
  {
    NotMentioned("Format it", "prettier");
    NotMentioned("Format it", "count");
    NotMentioned("Format it", "sort");
  }

  lemma ExampleEmpty()
    ensures Classify("") == Unknown
  {
  }
}
