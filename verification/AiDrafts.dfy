/** What happens around the model call: which turns it is shown, and which of its answers may be saved. */
module AiDrafts {
  import opened Wrappers
  import opened Records
  import opened NoteTags
  import opened Amounts
  import opened ImportRows
  import opened ImportConfirm
  import AiRequests

  // ---------- the answer ----------

  datatype ParsedDraft = ParsedDraft(
    amount: Option<int>, kind: Option<Kind>, categoryId: Option<nat>, categoryName: string, day: Option<int>,
    payment: Option<nat>, note: Option<string>)

  datatype ParseResult = ParseResult(ready: bool, drafts: seq<ParsedDraft>, questions: seq<string>)

  const QUESTION_LIMIT: nat := 5
  const ASK_ANYTHING := "这笔收支的金额和用途是什么？"
  const ASK_MORE := "请补充这笔收支的金额和用途。"

  function Ask(i: nat, what: string): string {
    "第 " + IntText(i) + " 笔" + what
  }

  predicate FitsName(c: CategoryRow, kind: Option<Kind>, name: string) {
    c.enabled && kind == Some(c.kind) && c.name == name
  }

  function CategoryByName(cs: seq<CategoryRow>, kind: Option<Kind>, name: string): (found: Option<nat>)
    ensures found.Some? ==> found.value < |cs| && FitsName(cs[found.value], kind, name)
  {
    if cs == [] then None
    else
      var n := |cs| - 1;
      match CategoryByName(cs[..n], kind, name)
      case Some(i) => Some(i)
      case None => if FitsName(cs[n], kind, name) then Some(n) else None
  }

  function Resolved(d: ParsedDraft, l: Listing): ParsedDraft {
    if d.categoryId.None? && d.categoryName != ""
    then d.(categoryId := CategoryByName(l.categories, d.kind, Strip(d.categoryName)))
    else d
  }

  predicate CategoryFits(d: ParsedDraft, l: Listing) {
    && d.categoryId.Some? && d.categoryId.value < |l.categories| && l.categories[d.categoryId.value].enabled
    && d.kind == Some(l.categories[d.categoryId.value].kind)
  }

  predicate MethodFits(d: ParsedDraft, l: Listing) {
    d.payment.Some? ==> d.payment.value < |l.methods| && l.methods[d.payment.value].enabled
  }

  function Questions(d: ParsedDraft, l: Listing, i: nat): seq<string> {
    (if d.amount.None? then [Ask(i, "的金额是多少？")] else [])
    + (if d.kind.None? then [Ask(i, "是收入还是支出？")] else [])
    + (if CategoryFits(d, l) then [] else [Ask(i, "应归入哪个分类？")])
    + (if d.day.None? then [Ask(i, "发生在哪一天？")] else [])
    + (if MethodFits(d, l) then [] else [Ask(i, "使用了哪种支付方式？")])
  }

  function Stated(questions: seq<string>): seq<string> {
    if questions == [] then []
    else
      var n := |questions| - 1;
      Stated(questions[..n]) + if Strip(questions[n]) == "" then [] else [Strip(questions[n])]
  }

  /** The drafts with their categories looked up, and everything there is to ask. */
  function Examine(drafts: seq<ParsedDraft>, l: Listing): (r: (seq<ParsedDraft>, seq<string>))
    ensures |r.0| == |drafts|
  {
    if drafts == [] then ([], [])
    else
      var n := |drafts| - 1;
      var (before, questions) := Examine(drafts[..n], l);
      (before + [Resolved(drafts[n], l)], questions + Questions(Resolved(drafts[n], l), l, n + 1))
  }

  function AllQuestions(p: ParseResult, l: Listing): seq<string> {
    (if p.drafts == [] then Stated(p.questions) + [ASK_ANYTHING] else Stated(p.questions)) + Examine(p.drafts, l).1
  }

  /** The first occurrence of each question. */
  function Distinct(questions: seq<string>): (r: seq<string>)
    ensures |r| <= |questions| && (questions != [] ==> r != [])
    ensures forall q :: q in r <==> q in questions
    ensures forall i, j :: 0 <= i < j < |r| ==> r[i] != r[j]
  {
    if questions == [] then []
    else
      var n := |questions| - 1;
      var before := Distinct(questions[..n]);
      assert questions == questions[..n] + [questions[n]];
      if questions[n] in before then before else before + [questions[n]]
  }

  function FirstFive(questions: seq<string>): seq<string> {
    var distinct := Distinct(questions);
    if |distinct| > QUESTION_LIMIT then distinct[..QUESTION_LIMIT] else if distinct == [] then [ASK_MORE] else distinct
  }

  function Prepare(p: ParseResult, l: Listing): ParseResult {
    var questions := AllQuestions(p, l);
    var drafts := Examine(p.drafts, l).0;
    if questions != [] || !p.ready then ParseResult(false, drafts, FirstFive(questions)) else p.(drafts := drafts)
  }

  lemma ExamineNext(drafts: seq<ParsedDraft>, l: Listing, i: nat)
    requires i < |drafts|
    ensures var d := Resolved(drafts[i], l);
            Examine(drafts[..i + 1], l) == (Examine(drafts[..i], l).0 + [d],
                                            Examine(drafts[..i], l).1 + Questions(d, l, i + 1))
  {
    assert drafts[..i + 1][..i] == drafts[..i];
  }

  method ExamineDrafts(all: seq<ParsedDraft>, l: Listing) returns (drafts: seq<ParsedDraft>, questions: seq<string>)
    ensures (drafts, questions) == Examine(all, l)
  {
    drafts, questions := [], [];
    var i := 0;
    while i < |all|
      invariant 0 <= i <= |all|
      invariant (drafts, questions) == Examine(all[..i], l)
    {
      ExamineNext(all, l, i);
      var draft := Resolved(all[i], l);
      drafts, questions := drafts + [draft], questions + Questions(draft, l, i + 1);
      i := i + 1;
    }
    assert all[..i] == all;
  }

  // ---------- a ready answer can be saved ----------

  predicate Complete(d: ParsedDraft, l: Listing) {
    d.amount.Some? && d.kind.Some? && d.day.Some? && CategoryFits(d, l) && MethodFits(d, l)
  }

  lemma {:induction false} ExamineAsks(drafts: seq<ParsedDraft>, l: Listing)
    ensures Examine(drafts, l).1 == [] <==> forall i :: 0 <= i < |drafts| ==> Complete(Resolved(drafts[i], l), l)
    ensures forall i :: 0 <= i < |drafts| ==> Examine(drafts, l).0[i] == Resolved(drafts[i], l)
  {
    if drafts != [] {
      var n := |drafts| - 1;
      ExamineAsks(drafts[..n], l);
      assert Questions(Resolved(drafts[n], l), l, n + 1) == [] <==> Complete(Resolved(drafts[n], l), l);
      forall i | 0 <= i < n ensures drafts[..n][i] == drafts[i] {
      }
    }
  }

  lemma {:induction false} StatedNothing(questions: seq<string>)
    ensures Stated(questions) == [] <==> forall i :: 0 <= i < |questions| ==> Strip(questions[i]) == ""
  {
    if questions != [] {
      StatedNothing(questions[..|questions| - 1]);
      forall i | 0 <= i < |questions| - 1 ensures questions[..|questions| - 1][i] == questions[i] {
      }
    }
  }

  /** An answer stays ready exactly when the model said so, asked nothing, named at least one draft, and every draft
      is complete and fits the enabled categories and methods; otherwise between one and five different questions go
      back. */
  lemma ReadyExactly(p: ParseResult, l: Listing)
    ensures var r := Prepare(p, l);
            && (r.ready <==> && p.ready && p.drafts != []
                             && (forall i :: 0 <= i < |p.questions| ==> Strip(p.questions[i]) == "")
                             && forall i :: 0 <= i < |p.drafts| ==> Complete(Resolved(p.drafts[i], l), l))
            && (r.ready ==> |r.drafts| == |p.drafts| && forall i :: 0 <= i < |r.drafts| ==> Complete(r.drafts[i], l))
            && (!r.ready ==>
                  && 1 <= |r.questions| <= QUESTION_LIMIT
                  && forall i, j :: 0 <= i < j < |r.questions| ==> r.questions[i] != r.questions[j])
  {
    ExamineAsks(p.drafts, l);
    StatedNothing(p.questions);
  }

  // ---------- the prepared answer, read off the model's ----------

  /** A draft without category but with a category's name gets the enabled category of its kind that has this name, if
      there is one; every other draft stays as it is. */
  ghost predicate ResolvedAs(d: ParsedDraft, l: Listing, r: ParsedDraft) {
    var cs := l.categories;
    if d.categoryId.Some? || d.categoryName == "" then r == d
    else
      && r == d.(categoryId := r.categoryId)
      && (r.categoryId.Some? ==>
            && r.categoryId.value < |cs| && cs[r.categoryId.value].enabled
            && d.kind == Some(cs[r.categoryId.value].kind)
            && cs[r.categoryId.value].name == Strip(d.categoryName))
      && (r.categoryId.None? ==>
            forall i :: 0 <= i < |cs| ==>
              !cs[i].enabled || d.kind != Some(cs[i].kind) || cs[i].name != Strip(d.categoryName))
  }

  predicate CategoryEnabled(d: ParsedDraft, l: Listing) {
    && d.categoryId.Some? && d.categoryId.value < |l.categories| && l.categories[d.categoryId.value].enabled
    && d.kind == Some(l.categories[d.categoryId.value].kind)
  }

  predicate MethodEnabled(d: ParsedDraft, l: Listing) {
    d.payment.None? || (d.payment.value < |l.methods| && l.methods[d.payment.value].enabled)
  }

  /** What has to be asked about the draft with this number. */
  predicate AsksAbout(q: string, d: ParsedDraft, l: Listing, number: nat) {
    var draft := "第 " + IntText(number) + " 笔";
    || (d.amount.None? && q == draft + "的金额是多少？")
    || (d.kind.None? && q == draft + "是收入还是支出？")
    || (!CategoryEnabled(d, l) && q == draft + "应归入哪个分类？")
    || (d.day.None? && q == draft + "发生在哪一天？")
    || (!MethodEnabled(d, l) && q == draft + "使用了哪种支付方式？")
  }

  ghost predicate AskedOfDrafts(q: string, drafts: seq<ParsedDraft>, l: Listing) {
    exists i :: 0 <= i < |drafts| && AsksAbout(q, drafts[i], l, i + 1)
  }

  ghost predicate StatedIn(q: string, questions: seq<string>) {
    q != "" && exists i :: 0 <= i < |questions| && Strip(questions[i]) == q
  }

  /** The model asked it, or it is about something a draft lacks, or there is no draft at all. */
  ghost predicate IsAsked(q: string, p: ParseResult, drafts: seq<ParsedDraft>, l: Listing) {
    || StatedIn(q, p.questions)
    || (p.drafts == [] && q == "这笔收支的金额和用途是什么？")
    || AskedOfDrafts(q, drafts, l)
  }

  /** The answer is ready exactly when the model said so and there is nothing to ask. Otherwise up to five of the
      questions go back, all of them when there are fewer, and a general one when there are none. */
  ghost predicate AnsweredAs(p: ParseResult, l: Listing, r: ParseResult) {
    && (r.ready <==> p.ready && forall q :: !IsAsked(q, p, r.drafts, l))
    && (r.ready ==> r.questions == p.questions)
    && (!r.ready ==>
          && 1 <= |r.questions| <= 5 && (forall i, j :: 0 <= i < j < |r.questions| ==> r.questions[i] != r.questions[j])
          && (if forall q :: !IsAsked(q, p, r.drafts, l) then r.questions == ["请补充这笔收支的金额和用途。"]
              else && (forall q :: q in r.questions ==> IsAsked(q, p, r.drafts, l))
                   && (|r.questions| < 5 ==> forall q :: IsAsked(q, p, r.drafts, l) ==> q in r.questions)))
  }

  ghost predicate PreparedAs(p: ParseResult, l: Listing, r: ParseResult) {
    && |r.drafts| == |p.drafts| && (forall i :: 0 <= i < |p.drafts| ==> ResolvedAs(p.drafts[i], l, r.drafts[i]))
    && AnsweredAs(p, l, r)
  }

  lemma {:induction false} NameExactly(cs: seq<CategoryRow>, kind: Option<Kind>, name: string)
    ensures CategoryByName(cs, kind, name).None? ==> forall i :: 0 <= i < |cs| ==> !FitsName(cs[i], kind, name)
  {
    if cs != [] {
      NameExactly(cs[..|cs| - 1], kind, name);
      forall i | 0 <= i < |cs| - 1 ensures cs[..|cs| - 1][i] == cs[i] {
      }
    }
  }

  lemma ResolveExactly(d: ParsedDraft, l: Listing)
    ensures ResolvedAs(d, l, Resolved(d, l))
  {
    NameExactly(l.categories, d.kind, Strip(d.categoryName));
    forall i | 0 <= i < |l.categories|
      ensures FitsName(l.categories[i], d.kind, Strip(d.categoryName))
              <==> l.categories[i].enabled && d.kind == Some(l.categories[i].kind)
                   && l.categories[i].name == Strip(d.categoryName)
    {
    }
  }

  lemma QuestionsExactly(q: string, d: ParsedDraft, l: Listing, number: nat)
    ensures q in Questions(d, l, number) <==> AsksAbout(q, d, l, number)
  {
    assert CategoryFits(d, l) <==> CategoryEnabled(d, l);
    assert MethodFits(d, l) <==> MethodEnabled(d, l);
  }

  lemma AskedOfMore(q: string, drafts: seq<ParsedDraft>, d: ParsedDraft, l: Listing)
    ensures AskedOfDrafts(q, drafts + [d], l) <==> AskedOfDrafts(q, drafts, l) || AsksAbout(q, d, l, |drafts| + 1)
  {
    var more := drafts + [d];
    if i :| 0 <= i < |drafts| && AsksAbout(q, drafts[i], l, i + 1) { assert more[i] == drafts[i]; }
    if i :| 0 <= i < |more| && AsksAbout(q, more[i], l, i + 1) {
      if i < |drafts| { assert AsksAbout(q, drafts[i], l, i + 1); }
    }
    assert more[|drafts|] == d;
  }

  lemma {:induction false} ExamineExactly(q: string, drafts: seq<ParsedDraft>, l: Listing)
    ensures q in Examine(drafts, l).1 <==> AskedOfDrafts(q, Examine(drafts, l).0, l)
  {
    if drafts != [] {
      var n := |drafts| - 1;
      ExamineExactly(q, drafts[..n], l);
      QuestionsExactly(q, Resolved(drafts[n], l), l, n + 1);
      AskedOfMore(q, Examine(drafts[..n], l).0, Resolved(drafts[n], l), l);
    }
  }

  lemma StatedMore(q: string, front: seq<string>, last: string)
    ensures StatedIn(q, front + [last]) <==> StatedIn(q, front) || (q != "" && Strip(last) == q)
  {
    var more := front + [last];
    if StatedIn(q, front) {
      var i :| 0 <= i < |front| && Strip(front[i]) == q;
      assert more[i] == front[i];
    }
    assert more[|front|] == last;
  }

  lemma {:induction false} StatedExactly(q: string, questions: seq<string>)
    ensures q in Stated(questions) <==> StatedIn(q, questions)
  {
    if questions != [] {
      var front := questions[..|questions| - 1];
      StatedExactly(q, front);
      assert questions == front + [questions[|front|]];
      StatedMore(q, front, questions[|front|]);
    }
  }

  lemma AskedExactly(q: string, p: ParseResult, l: Listing)
    ensures q in AllQuestions(p, l) <==> IsAsked(q, p, Examine(p.drafts, l).0, l)
  {
    StatedExactly(q, p.questions);
    ExamineExactly(q, p.drafts, l);
  }

  lemma FiveExactly(questions: seq<string>)
    ensures var r := FirstFive(questions);
            && 1 <= |r| <= 5 && (forall i, j :: 0 <= i < j < |r| ==> r[i] != r[j])
            && (if questions == [] then r == ["请补充这笔收支的金额和用途。"]
                else && (forall q :: q in r ==> q in questions) && (|r| < 5 ==> forall q :: q in questions ==> q in r))
  {
  }

  lemma PrepareExactly(p: ParseResult, l: Listing)
    ensures PreparedAs(p, l, Prepare(p, l))
  {
    var (questions, drafts) := (AllQuestions(p, l), Examine(p.drafts, l).0);
    ExamineAsks(p.drafts, l);
    forall i | 0 <= i < |p.drafts| ensures ResolvedAs(p.drafts[i], l, drafts[i]) {
      ResolveExactly(p.drafts[i], l);
    }
    forall q ensures q in questions <==> IsAsked(q, p, drafts, l) {
      AskedExactly(q, p, l);
    }
    FiveExactly(questions);
    AnswersAsked(p, l, questions);
  }

  lemma AnswersAsked(p: ParseResult, l: Listing, questions: seq<string>)
    requires questions == AllQuestions(p, l)
    requires forall q :: q in questions <==> IsAsked(q, p, Prepare(p, l).drafts, l)
    ensures AnsweredAs(p, l, Prepare(p, l))
  {
    FiveExactly(questions);
    if questions != [] { assert questions[0] in questions; }
  }

  /** `_prepare_parsed`. */
  method PrepareParsed(p: ParseResult, l: Listing) returns (r: ParseResult)
    ensures r == Prepare(p, l) && PreparedAs(p, l, r)
  {
    PrepareExactly(p, l);
    var questions := Stated(p.questions);
    if p.drafts == [] {
      questions := questions + [ASK_ANYTHING];
    }
    var drafts, asked := ExamineDrafts(p.drafts, l);
    questions := questions + asked;
    if questions != [] || !p.ready {
      r := ParseResult(false, drafts, FirstFive(questions));
    } else {
      r := p.(drafts := drafts);
    }
  }

  function RecordDraft(d: ParsedDraft, l: Listing): Draft
    requires Complete(d, l)
  {
    Draft(d.kind.value, d.amount.value, d.categoryId.value, d.payment, d.day.value, d.note)
  }

  function RecordDrafts(ds: seq<ParsedDraft>, l: Listing): (r: seq<Draft>)
    requires forall i :: 0 <= i < |ds| ==> Complete(ds[i], l)
    ensures |r| == |ds| && forall i :: 0 <= i < |r| ==> r[i] == RecordDraft(ds[i], l)
  {
    if ds == [] then [] else RecordDrafts(ds[..|ds| - 1], l) + [RecordDraft(ds[|ds| - 1], l)]
  }

  /** A prepared answer that is ready is saved in full, one new record per draft in order, when it is saved under the
      listing it was prepared with and none of its keys is taken. */
  lemma ReadyIsSaved(p: ParseResult, l: Listing, rs: seq<Record>, user: nat, session: nat, cid: string)
    requires Prepare(p, l).ready
    requires forall i :: 0 <= i < |p.drafts| ==> Unused(rs, user, AiKey(session, cid, i))
    ensures forall i :: 0 <= i < |Prepare(p, l).drafts| ==> Complete(Prepare(p, l).drafts[i], l)
    ensures var drafts := RecordDrafts(Prepare(p, l).drafts, l);
            AiRequests.SaveResult(rs, user, session, cid, AiRequests.Ready(drafts), Usable(l)) ==
            Ok((rs + NewRows(user, AiRequests.BatchItems(user, session, cid, drafts), FromAi),
                IdsFrom(|rs|, |p.drafts|)))
  {
    ReadyExactly(p, l);
    var drafts := RecordDrafts(Prepare(p, l).drafts, l);
    var items := AiRequests.BatchItems(user, session, cid, drafts);
    forall i | 0 <= i < |items| ensures Unused(rs, user, items[i].key) && Allowed(items[i], Usable(l)) {
      assert items[i] == Item(AiKey(session, cid, i), RecordDraft(Prepare(p, l).drafts[i], l));
    }
    FreshBatchSucceeds(rs, user, items, FromAi, Usable(l));
  }

  // ---------- the turns the model is shown ----------

  datatype Turn = Turn(assistant: bool, failed: bool, ready: bool, autoSaved: bool, content: string)

  /** A turn that was booked: nothing before it may be shown again. */
  predicate Booked(t: Turn) {
    !t.failed && t.assistant && (t.ready || t.autoSaved)
  }

  function Unfailed(turns: seq<Turn>): seq<Turn> {
    if turns == [] then []
    else
      var n := |turns| - 1;
      Unfailed(turns[..n]) + if turns[n].failed then [] else [turns[n]]
  }

  /** Where the shown turns begin: after the last booked one. */
  function Boundary(history: seq<Turn>): (b: nat)
    ensures b <= |history| && (b > 0 ==> Booked(history[b - 1]))
    ensures forall i :: b <= i < |history| ==> !Booked(history[i])
  {
    if history == [] then 0
    else if Booked(history[|history| - 1]) then |history|
    else Boundary(history[..|history| - 1])
  }

  function Shown(history: seq<Turn>): seq<Turn> {
    if history == [] then []
    else
      var n := |history| - 1;
      if history[n].failed then Shown(history[..n])
      else if Booked(history[n]) then []
      else Shown(history[..n]) + [history[n]]
  }

  function Reversed(turns: seq<Turn>): (r: seq<Turn>)
    ensures |r| == |turns|
  {
    if turns == [] then [] else [turns[|turns| - 1]] + Reversed(turns[..|turns| - 1])
  }

  lemma ReversedSnoc(turns: seq<Turn>, t: Turn)
    ensures Reversed(turns + [t]) == [t] + Reversed(turns)
  {
    assert (turns + [t])[..|turns|] == turns;
  }

  /** Collect from the newest turn back, and turn the list round. */
  method CollectPending(history: seq<Turn>) returns (shown: seq<Turn>)
    ensures shown == Shown(history)
  {
    var pending: seq<Turn> := [];
    var i := |history|;
    assert history[..i] == history;
    while i > 0
      invariant 0 <= i <= |history|
      invariant Shown(history) == Shown(history[..i]) + Reversed(pending)
    {
      i := i - 1;
      assert history[..i + 1][..i] == history[..i];
      if history[i].failed {
        continue;
      }
      if history[i].assistant && (history[i].ready || history[i].autoSaved) {
        return Reversed(pending);
      }
      ReversedSnoc(pending, history[i]);
      assert Shown(history[..i]) + [history[i]] + Reversed(pending) == Shown(history[..i])
          + ([history[i]] + Reversed(pending));
      pending := pending + [history[i]];
    }
    return Reversed(pending);
  }

  /** The model is shown exactly the unfailed turns after the last booked one, in order. */
  lemma {:induction false} ShownExactly(history: seq<Turn>)
    ensures Shown(history) == Unfailed(history[Boundary(history)..])
  {
    if history != [] {
      var n := |history| - 1;
      var b := Boundary(history);
      if b <= n {
        ShownExactly(history[..n]);
        assert history[b..][..n - b] == history[..n][b..];
        assert history[b..][n - b] == history[n];
      }
    }
  }

  /** The shown turns begin behind the last one that was booked, an answer that did not fail and was ready or saved by
      itself, and are those from there on that did not fail, in order. */
  ghost predicate ShownAs(history: seq<Turn>, shown: seq<Turn>, b: nat) {
    && b <= |history| && shown == Unfailed(history[b..])
    && (b > 0 ==>
          history[b - 1].assistant && !history[b - 1].failed && (history[b - 1].ready || history[b - 1].autoSaved))
    && forall i :: b <= i < |history| ==>
         !history[i].assistant || history[i].failed || (!history[i].ready && !history[i].autoSaved)
  }

  /** `_pending_history`. */
  method PendingHistory(history: seq<Turn>) returns (shown: seq<Turn>)
    ensures shown == Shown(history) && exists b :: ShownAs(history, shown, b)
  {
    ShownExactly(history);
    assert ShownAs(history, Shown(history), Boundary(history));
    shown := CollectPending(history);
  }
}
