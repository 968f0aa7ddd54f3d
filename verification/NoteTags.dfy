/** How an import folds book and second-level category into a note, and how exports and duplicate detection take them
    out again. */
module NoteTags {
  import opened Wrappers

  /** The characters `str.strip` removes. */
  predicate Space(c: char) {
    var n := c as int;
    || 9 <= n <= 13 || 28 <= n <= 32 || n == 0x85 || n == 0xA0 || n == 0x1680 || 0x2000 <= n <= 0x200A
    || n == 0x2028 || n == 0x2029 || n == 0x202F || n == 0x205F || n == 0x3000
  }

  function LeftStrip(s: string): (r: string)
    ensures |r| <= |s| && (r == "" || !Space(r[0]))
    ensures (s == "" || !Space(s[0])) ==> r == s
  {
    if s != "" && Space(s[0]) then LeftStrip(s[1..]) else s
  }

  function RightStrip(s: string): (r: string)
    ensures r <= s && (r == "" || !Space(r[|r| - 1]))
    ensures (s == "" || !Space(s[|s| - 1])) ==> r == s
  {
    if s != "" && Space(s[|s| - 1]) then RightStrip(s[..|s| - 1]) else s
  }

  predicate Stripped(s: string) {
    s == "" || (!Space(s[0]) && !Space(s[|s| - 1]))
  }

  function Strip(s: string): (r: string)
    ensures Stripped(r) && |r| <= |s|
    ensures Stripped(s) ==> r == s
  {
    RightStrip(LeftStrip(s))
  }

  lemma {:induction false} LeftStripTakes(s: string) returns (i: nat)
    ensures i <= |s| && LeftStrip(s) == s[i..] && forall k :: 0 <= k < i ==> Space(s[k])
  {
    if s != "" && Space(s[0]) {
      i := LeftStripTakes(s[1..]);
      assert s[1..][i..] == s[i + 1..];
      forall k | 0 < k <= i ensures Space(s[k]) {
        assert s[k] == s[1..][k - 1];
      }
      i := i + 1;
    } else {
      i := 0;
    }
  }

  lemma {:induction false} RightStripTakes(s: string)
    ensures forall k :: |RightStrip(s)| <= k < |s| ==> Space(s[k])
  {
    if s != "" && Space(s[|s| - 1]) { RightStripTakes(s[..|s| - 1]); }
  }

  /** Only white space is taken away, and only at the two ends. */
  lemma StripTakes(s: string) returns (i: nat, j: nat)
    ensures i <= j <= |s| && Strip(s) == s[i..j]
    ensures (forall k :: 0 <= k < i ==> Space(s[k])) && forall k :: j <= k < |s| ==> Space(s[k])
  {
    i := LeftStripTakes(s);
    RightStripTakes(s[i..]);
    j := i + |Strip(s)|;
    assert Strip(s) == s[i..][..|Strip(s)|];
    forall k | j <= k < |s| ensures Space(s[k]) {
      assert s[k] == s[i..][k - i];
    }
  }

  const LEDGER := "[账本:"
  const SECOND := "[二级分类:"

  /** Length of the tag opener at the start of `s`, 0 when there is none. */
  function Opener(s: string): (k: nat)
    ensures k <= |s|
  {
    if LEDGER <= s then |LEDGER| else if SECOND <= s then |SECOND| else 0
  }

  /** Where the first `]` is, if no line ends before it. */
  function Closing(s: string): (at: Option<nat>)
    ensures at.Some? ==> at.value < |s| && s[at.value] == ']'
  {
    if s == "" || s[0] == '\n' then None
    else if s[0] == ']' then Some(0)
    else match Closing(s[1..]) case Some(i) => Some(i + 1) case None => None
  }

  function TagLen(s: string): (m: nat)
    ensures m <= |s|
  {
    var k := Opener(s);
    if k == 0 then 0 else match Closing(s[k..]) case Some(i) => k + i + 1 case None => 0
  }

  /** Length of the match of ` ?\[(?:账本|二级分类):.*?\]` at the start of `s`, 0 when there is none. */
  function MatchLen(s: string): (m: nat)
    ensures m <= |s|
  {
    if s != "" && s[0] == ' ' && TagLen(s[1..]) > 0 then 1 + TagLen(s[1..]) else TagLen(s)
  }

  /** `re.sub` with the empty string: matches are taken from the left and do not overlap. `matchAt` gives the length
      of the match at the start of a text, 0 for none. */
  function RemoveAll(matchAt: string -> nat, s: string): string {
    if s == "" then ""
    else
      var m := matchAt(s);
      if 0 < m <= |s| then RemoveAll(matchAt, s[m..]) else [s[0]] + RemoveAll(matchAt, s[1..])
  }

  function RemoveTags(s: string): string {
    RemoveAll(MatchLen, s)
  }

  function Untag(s: string): string {
    Strip(RemoveTags(s))
  }

  function Tag(opener: string, name: string): string {
    if name == "" then "" else opener + name + "]"
  }

  function JoinNonEmpty(parts: seq<string>): string {
    if parts == [] then ""
    else
      var rest := JoinNonEmpty(parts[1..]);
      if parts[0] == "" then rest else if rest == "" then parts[0] else parts[0] + " " + rest
  }

  /** The stored note of an imported row; absent parts are empty. */
  function Expand(note: string, ledger: string, second: string): string {
    Strip(JoinNonEmpty([note, Tag(LEDGER, ledger), Tag(SECOND, second)]))
  }

  /** What follows the note: each present tag after one space. */
  function Tail(ledger: string, second: string): string {
    (if ledger == "" then "" else " " + Tag(LEDGER, ledger)) + (if second == "" then "" else " " + Tag(SECOND, second))
  }

  predicate Clean(name: string) {
    ']' !in name && '\n' !in name
  }

  /** A line ends before any `]`. */
  predicate Blocked(s: string) {
    s != "" && (s[0] == '\n' || (s[0] != ']' && Blocked(s[1..])))
  }

  /** Somewhere in the note a tag opens that its own line may still close. */
  predicate HasOpenTag(s: string) {
    s != "" && ((Opener(s) > 0 && !Blocked(s[Opener(s)..])) || HasOpenTag(s[1..]))
  }

  // ---------- scanning a text that is followed by tags ----------

  lemma {:induction false} ClosingAppend(a: string, b: string)
    ensures Blocked(a) ==> Closing(a + b) == None
    ensures Closing(a).Some? ==> Closing(a + b) == Closing(a)
    ensures !Blocked(a) && Closing(a).None? ==>
              Closing(a + b) == match Closing(b) case Some(i) => Some(|a| + i) case None => None
  {
    if a == "" {
      assert a + b == b;
    } else {
      assert (a + b)[1..] == a[1..] + b;
      ClosingAppend(a[1..], b);
    }
  }

  lemma {:induction false} ClosingClean(a: string)
    requires Clean(a)
    ensures Closing(a).None? && !Blocked(a)
  {
    if a != "" { ClosingClean(a[1..]); }
  }

  lemma ClosingOfName(name: string, rest: string)
    requires Clean(name)
    ensures Closing(name + "]" + rest) == Some(|name|)
  {
    ClosingClean(name);
    ClosingAppend(name, "]" + rest);
    assert name + "]" + rest == name + ("]" + rest);
  }

  lemma OpenerOfTag(opener: string, rest: string)
    requires opener == LEDGER || opener == SECOND
    ensures Opener(opener + rest) == |opener| && (opener + rest)[|opener|..] == rest
  {
    assert opener <= opener + rest;
    assert (opener + rest)[1] == opener[1];
    assert LEDGER[1] != SECOND[1];
  }

  /** A tag at the front is matched in full. */
  lemma TagLenOfTag(opener: string, name: string, rest: string)
    requires opener == LEDGER || opener == SECOND
    requires name != "" && Clean(name)
    ensures TagLen(Tag(opener, name) + rest) == |Tag(opener, name)|
  {
    OpenerOfTag(opener, name + "]" + rest);
    ClosingOfName(name, rest);
    assert Tag(opener, name) + rest == opener + (name + "]" + rest);
  }

  lemma DropMatch(matchAt: string -> nat, s: string, rest: string)
    requires 0 < matchAt(s) <= |s| && s[matchAt(s)..] == rest
    ensures RemoveAll(matchAt, s) == RemoveAll(matchAt, rest)
  {
  }

  lemma RemoveOneTag(opener: string, name: string, rest: string)
    requires opener == LEDGER || opener == SECOND
    requires name != "" && Clean(name)
    ensures RemoveTags(Tag(opener, name) + rest) == RemoveTags(rest)
    ensures RemoveTags(" " + (Tag(opener, name) + rest)) == RemoveTags(rest)
  {
    TagLenOfTag(opener, name, rest);
    var t := Tag(opener, name) + rest;
    assert t[|Tag(opener, name)|..] == rest;
    assert t[0] == '[';
    assert MatchLen(t) == TagLen(t);
    DropMatch(MatchLen, t, rest);
    assert (" " + t)[1..] == t;
    assert MatchLen(" " + t) == 1 + TagLen(t);
    assert (" " + t)[1 + TagLen(t)..] == rest;
    DropMatch(MatchLen, " " + t, rest);
  }

  lemma RemoveLast(second: string)
    requires Clean(second)
    ensures RemoveTags(Tail("", second)) == ""
    ensures Tail("", second) != "" ==> RemoveTags(Tail("", second)[1..]) == ""
  {
    if second != "" {
      RemoveOneTag(SECOND, second, "");
      var t := Tag(SECOND, second) + "";
      assert Tail("", second) == " " + t;
      assert (" " + t)[1..] == t;
    }
  }

  lemma TailSplits(ledger: string, second: string)
    requires ledger != ""
    ensures Tail(ledger, second) == " " + (Tag(LEDGER, ledger) + Tail("", second))
    ensures Tail(ledger, second)[1..] == Tag(LEDGER, ledger) + Tail("", second)
  {
  }

  lemma RemoveTail(ledger: string, second: string)
    requires Clean(ledger) && Clean(second)
    ensures RemoveTags(Tail(ledger, second)) == ""
    ensures Tail(ledger, second) != "" ==> RemoveTags(Tail(ledger, second)[1..]) == ""
  {
    RemoveLast(second);
    if ledger != "" {
      TailSplits(ledger, second);
      RemoveOneTag(LEDGER, ledger, Tail("", second));
    }
  }

  lemma PrefixAppend(opener: string, a: string, tail: string)
    requires tail == "" || tail[0] !in opener
    ensures opener <= a + tail <==> opener <= a
  {
    if opener <= a + tail {
      if tail == "" {
        assert a + tail == a;
      } else {
        assert (a + tail)[|a|] == tail[0];
        assert forall k :: 0 <= k < |opener| ==> opener[k] in opener && opener[k] == (a + tail)[k];
      }
    }
  }

  /** No opener can begin in the note and end in what follows it. */
  lemma OpenerAppend(a: string, tail: string)
    requires tail == "" || tail[0] == ' '
    ensures Opener(a + tail) == Opener(a)
  {
    PrefixAppend(LEDGER, a, tail);
    PrefixAppend(SECOND, a, tail);
  }

  // ---------- untagging an expanded note ----------

  lemma OpenerInside(s: string, k: nat, tail: string)
    requires k <= |s|
    ensures (s + tail)[k..] == s[k..] + tail
  {
  }

  /** Before a tail, a tag starting in the note matches exactly when its line can still close it. */
  lemma TagLenAppend(a: string, tail: string)
    requires tail == "" || tail[0] == ' '
    ensures Opener(a) == 0 || Blocked(a[Opener(a)..]) ==> TagLen(a + tail) == 0
    ensures Opener(a) > 0 && Closing(a[Opener(a)..]).Some? ==> TagLen(a + tail) == TagLen(a)
    ensures Opener(a) > 0 && !Blocked(a[Opener(a)..]) && Closing(a[Opener(a)..]).None? ==>
              TagLen(a + tail) == match Closing(tail) case Some(i) => |a| + i + 1 case None => 0
  {
    OpenerAppend(a, tail);
    var k := Opener(a);
    OpenerInside(a, k, tail);
    ClosingAppend(a[k..], tail);
  }

  lemma NoMatch(note: string, tail: string)
    requires tail == "" || tail[0] == ' '
    requires note != "" && !HasOpenTag(note)
    ensures MatchLen(note + tail) == 0
  {
    TagLenAppend(note, tail);
    assert (note + tail)[1..] == note[1..] + tail;
    if note[1..] == "" {
      assert Opener("") == 0;
    }
    TagLenAppend(note[1..], tail);
  }

  /** Removal copies a front in which nothing matches. */
  lemma {:induction false} RemoveAllKeeps(matchAt: string -> nat, note: string, tail: string)
    requires forall p :: 0 <= p < |note| ==> matchAt(note[p..] + tail) == 0
    ensures RemoveAll(matchAt, note + tail) == note + RemoveAll(matchAt, tail)
  {
    if note == "" {
      assert note + tail == tail;
    } else {
      assert note[0..] == note;
      assert (note + tail)[1..] == note[1..] + tail;
      forall p | 0 <= p < |note[1..]| ensures matchAt(note[1..][p..] + tail) == 0 {
        assert note[1..][p..] == note[p + 1..];
      }
      RemoveAllKeeps(matchAt, note[1..], tail);
      assert note == [note[0]] + note[1..];
    }
  }

  /** Removal never lengthens the front of a text whose end it removes, and shortens it when a match starts there. */
  lemma {:induction false} RemoveAllShrinks(matchAt: string -> nat, note: string, tail: string)
    requires RemoveAll(matchAt, tail) == ""
    requires forall p :: 0 <= p < |note| ==>
               var s := note[p..] + tail; matchAt(s) <= |s| && (matchAt(s) > |note| - p ==> RemoveAll(matchAt, s) == "")
    ensures |RemoveAll(matchAt, note + tail)| <= |note|
    ensures forall p :: 0 <= p < |note| && matchAt(note[p..] + tail) > 0 ==> |RemoveAll(matchAt, note + tail)| < |note|
  {
    if note == "" {
      assert note + tail == tail;
    } else {
      assert note[0..] == note;
      var m := matchAt(note + tail);
      var n := if m == 0 then 1 else m;
      if n <= |note| {
        assert (note + tail)[n..] == note[n..] + tail;
        forall p | 0 <= p < |note[n..]| ensures note[n..][p..] == note[p + n..] {
        }
        RemoveAllShrinks(matchAt, note[n..], tail);
        forall p | 0 <= p < |note| && matchAt(note[p..] + tail) > 0 ensures |RemoveAll(matchAt, note + tail)| < |note| {
          if m == 0 && p > 0 {
            assert note[1..][p - 1..] == note[p..];
          }
        }
      }
    }
  }

  lemma {:induction false} OpenTagAt(note: string, p: nat)
    requires p < |note|
    ensures !HasOpenTag(note) ==> !HasOpenTag(note[p..])
  {
    if p > 0 {
      OpenTagAt(note[1..], p - 1);
      assert note[1..][p - 1..] == note[p..];
    } else {
      assert note[p..] == note;
    }
  }

  lemma {:induction false} FindOpenTag(note: string) returns (p: nat)
    requires HasOpenTag(note)
    ensures p < |note| && Opener(note[p..]) > 0 && !Blocked(note[p..][Opener(note[p..])..])
  {
    if Opener(note) > 0 && !Blocked(note[Opener(note)..]) {
      p := 0;
      assert note[0..] == note;
    } else {
      p := FindOpenTag(note[1..]);
      assert note[1..][p..] == note[p + 1..];
      p := p + 1;
    }
  }

  lemma RemoveTagsKeeps(note: string, tail: string)
    requires tail == "" || tail[0] == ' '
    requires !HasOpenTag(note)
    ensures RemoveTags(note + tail) == note + RemoveTags(tail)
  {
    forall p | 0 <= p < |note| ensures MatchLen(note[p..] + tail) == 0 {
      OpenTagAt(note, p);
      NoMatch(note[p..], tail);
    }
    RemoveAllKeeps(MatchLen, note, tail);
  }

  lemma TailIsTagAndRest(ledger: string, second: string) returns (before: string, rest: string)
    requires Clean(ledger) && Clean(second) && Tail(ledger, second) != ""
    ensures Clean(before) && Tail(ledger, second) == before + "]" + rest && (rest == "" || rest == Tail("", second))
  {
    if ledger != "" {
      TailSplits(ledger, second);
      before, rest := " " + LEDGER + ledger, Tail("", second);
    } else {
      before, rest := " " + SECOND + second, "";
    }
  }

  /** The text from the first closing bracket of the tail on is one whole tag or none. */
  lemma TailClosing(ledger: string, second: string)
    requires Clean(ledger) && Clean(second) && Tail(ledger, second) != ""
    ensures var at := Closing(Tail(ledger, second)); at.Some? && RemoveTags(Tail(ledger, second)[at.value + 1..]) == ""
  {
    var before, rest := TailIsTagAndRest(ledger, second);
    ClosingOfName(before, rest);
    assert Tail(ledger, second)[|before| + 1..] == rest;
    RemoveLast(second);
    assert RemoveTags("") == "";
  }

  lemma OpenMatches(note: string, ledger: string, second: string)
    requires Clean(ledger) && Clean(second) && Tail(ledger, second) != ""
    requires Opener(note) > 0 && !Blocked(note[Opener(note)..])
    ensures MatchLen(note + Tail(ledger, second)) > 0
  {
    TagLenAppend(note, Tail(ledger, second));
    TailClosing(ledger, second);
  }

  lemma TagIntoTail(a: string, ledger: string, second: string)
    requires Clean(ledger) && Clean(second) && Tail(ledger, second) != ""
    requires TagLen(a + Tail(ledger, second)) > |a|
    ensures var s := a + Tail(ledger, second); RemoveTags(s[TagLen(s)..]) == ""
  {
    var tail := Tail(ledger, second);
    TagLenAppend(a, tail);
    TailClosing(ledger, second);
    assert (a + tail)[TagLen(a + tail)..] == tail[Closing(tail).value + 1..];
  }

  lemma MatchIntoTail(note: string, ledger: string, second: string)
    requires Clean(ledger) && Clean(second) && Tail(ledger, second) != ""
    requires note != "" && MatchLen(note + Tail(ledger, second)) > |note|
    ensures RemoveTags(note + Tail(ledger, second)) == ""
  {
    var s := note + Tail(ledger, second);
    assert s[1..] == note[1..] + Tail(ledger, second);
    if s[0] == ' ' && TagLen(s[1..]) > 0 {
      TagIntoTail(note[1..], ledger, second);
      assert s[1..][TagLen(s[1..])..] == s[MatchLen(s)..];
    } else {
      TagIntoTail(note, ledger, second);
    }
  }

  /** Text before a tail shrinks when it holds an open tag. */
  lemma RemoveTagsShrinks(note: string, ledger: string, second: string)
    requires Clean(ledger) && Clean(second) && Tail(ledger, second) != ""
    requires HasOpenTag(note)
    ensures |RemoveTags(note + Tail(ledger, second))| < |note|
  {
    var tail := Tail(ledger, second);
    forall p | 0 <= p < |note|
      ensures var s := note[p..] + tail;
              MatchLen(s) <= |s| && (MatchLen(s) > |note| - p ==> RemoveAll(MatchLen, s) == "")
    {
      if MatchLen(note[p..] + tail) > |note| - p {
        MatchIntoTail(note[p..], ledger, second);
      }
    }
    RemoveTail(ledger, second);
    RemoveAllShrinks(MatchLen, note, tail);
    var p := FindOpenTag(note);
    OpenMatches(note[p..], ledger, second);
  }

  lemma JoinThree(note: string, a: string, b: string)
    ensures JoinNonEmpty([note, a, b]) ==
            var rest := if a == "" then b else if b == "" then a else a + " " + b;
            if note == "" then rest else if rest == "" then note else note + " " + rest
  {
    assert [note, a, b][1..] == [a, b] && [a, b][1..] == [b] && [b][1..] == [];
    assert JoinNonEmpty([b]) == b;
    assert JoinNonEmpty([a, b]) == if a == "" then b else if b == "" then a else a + " " + b;
  }

  lemma JoinIsNoteAndTail(note: string, ledger: string, second: string)
    ensures JoinNonEmpty([note, Tag(LEDGER, ledger), Tag(SECOND, second)]) ==
            if note == "" && Tail(ledger, second) != "" then Tail(ledger, second)[1..] else note + Tail(ledger, second)
  {
    JoinThree(note, Tag(LEDGER, ledger), Tag(SECOND, second));
  }

  lemma TailEnds(ledger: string, second: string)
    ensures var tail := Tail(ledger, second);
            tail != "" ==> |tail| > 1 && tail[0] == ' ' && tail[1] == '[' && tail[|tail| - 1] == ']'
  {
  }

  lemma ExpandIsNoteAndTail(note: string, ledger: string, second: string)
    requires Stripped(note)
    ensures Expand(note, ledger, second) ==
            if note == "" && Tail(ledger, second) != "" then Tail(ledger, second)[1..] else note + Tail(ledger, second)
  {
    JoinIsNoteAndTail(note, ledger, second);
    TailEnds(ledger, second);
  }

  /** Taking the tags out of an expanded note gives the note back exactly when no tag stands open in it, for names
      that a tag can hold. */
  lemma UntagExpand(note: string, ledger: string, second: string)
    requires Stripped(note) && Clean(ledger) && Clean(second) && (ledger != "" || second != "")
    ensures Untag(Expand(note, ledger, second)) == note <==> !HasOpenTag(note)
  {
    var tail := Tail(ledger, second);
    ExpandIsNoteAndTail(note, ledger, second);
    RemoveTail(ledger, second);
    if note != "" {
      if HasOpenTag(note) {
        RemoveTagsShrinks(note, ledger, second);
      } else {
        RemoveTagsKeeps(note, tail);
        assert note + "" == note;
      }
    }
  }

  lemma SplitTail(name: string, rest: string)
    requires name != ""
    ensures Tail(name + "]" + rest, "") == " " + (Tag(LEDGER, name) + (rest + "]"))
  {
  }

  lemma RemoveSplitTail(name: string, rest: string)
    requires name != "" && Clean(name) && !HasOpenTag(rest + "]")
    ensures RemoveTags(Tail(name + "]" + rest, "")) == rest + "]"
  {
    var after := rest + "]";
    SplitTail(name, rest);
    RemoveOneTag(LEDGER, name, after);
    RemoveTagsKeeps(after, "");
    assert after + "" == after;
  }

  /** With a bracket inside the name the tag ends early, and the rest of the name stays behind in the note. */
  lemma BracketInNameStaysBehind(note: string, name: string, rest: string)
    requires note != "" && Stripped(note) && !HasOpenTag(note)
    requires name != "" && Clean(name) && !HasOpenTag(rest + "]")
    ensures Untag(Expand(note, name + "]" + rest, "")) == note + rest + "]"
  {
    var tail := Tail(name + "]" + rest, "");
    ExpandIsNoteAndTail(note, name + "]" + rest, "");
    TailEnds(name + "]" + rest, "");
    RemoveTagsKeeps(note, tail);
    RemoveSplitTail(name, rest);
    assert note + (rest + "]") == note + rest + "]";
  }
}
