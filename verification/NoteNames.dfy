/** Which names a tag can hold: what is left of the tags of any book and second-level category once tags are removed. */
module NoteNames {
  import opened Wrappers
  import opened NoteTags

  predicate AllSpace(s: string) {
    forall i :: 0 <= i < |s| ==> Space(s[i])
  }

  /** A tag with this name is removed without a trace: the name holds neither bracket nor line end, or its first bracket
      comes before any line end and is followed, after spaces, by the opener of another tag whose name is held. */
  predicate Held(name: string)
    decreases |name|
  {
    match Closing(name)
    case None => !Blocked(name)
    case Some(i) =>
      var rest := LeftStrip(name[i + 1..]);
      Opener(rest) > 0 && Held(rest[Opener(rest)..])
  }

  /** An absent name writes no tag. */
  predicate NameHeld(name: string) {
    name == "" || Held(name)
  }

  lemma {:induction false} LeftStripDrops(s: string) returns (front: string)
    ensures s == front + LeftStrip(s) && AllSpace(front)
  {
    if s != "" && Space(s[0]) {
      var f := LeftStripDrops(s[1..]);
      front := [s[0]] + f;
      assert s == [s[0]] + s[1..];
    } else {
      front := "";
    }
  }

  /** A text whose first character is neither a space nor the start of a tag leaves that character behind. */
  lemma LeavesFirst(t: string)
    requires t != "" && !Space(t[0]) && MatchLen(t) == 0
    ensures !AllSpace(RemoveTags(t))
  {
    assert RemoveTags(t)[0] == t[0];
  }

  lemma SpaceStarts(c: char, t: string)
    requires Space(c)
    ensures TagLen([c] + t) == 0 && ([c] + t)[1..] == t
    ensures MatchLen([c] + t) == if c == ' ' && TagLen(t) > 0 then 1 + TagLen(t) else 0
  {
    assert ([c] + t)[0] == c && c != '[';
    assert LEDGER[0] == '[' && SECOND[0] == '[';
  }

  /** One space in front changes nothing but spaces. */
  lemma OneSpace(c: char, t: string)
    requires Space(c) && t != ""
    ensures AllSpace(RemoveTags([c] + t)) <==> AllSpace(RemoveTags(t))
  {
    var s := [c] + t;
    SpaceStarts(c, t);
    if MatchLen(s) > 0 {
      assert t[0] == '[';
      assert MatchLen(t) == TagLen(t);
      assert s[MatchLen(s)..] == t[TagLen(t)..];
      DropMatch(MatchLen, s, t[TagLen(t)..]);
      DropMatch(MatchLen, t, t[TagLen(t)..]);
    } else {
      assert RemoveTags(s) == [c] + RemoveTags(t);
      assert forall i :: 0 <= i < |RemoveTags(t)| ==> RemoveTags(s)[i + 1] == RemoveTags(t)[i];
    }
  }

  lemma FrontSplits(front: string, t: string)
    requires front != ""
    ensures front + t == [front[0]] + (front[1..] + t)
    ensures AllSpace(front) ==> Space(front[0]) && AllSpace(front[1..])
  {
  }

  lemma {:induction false} SpacesInFront(front: string, t: string)
    requires AllSpace(front) && t != ""
    ensures AllSpace(RemoveTags(front + t)) <==> AllSpace(RemoveTags(t))
  {
    if front == "" {
      assert front + t == t;
    } else {
      FrontSplits(front, t);
      var rest := front[1..];
      SpacesInFront(rest, t);
      var u := rest + t;
      OneSpace(front[0], u);
    }
  }

  lemma ClosingCases(name: string)
    ensures Closing(name).None? && !Blocked(name) ==> Clean(name)
    ensures Closing(name).Some? ==> !Blocked(name)
  {
    if name != "" { ClosingCases(name[1..]); }
  }

  /** The text of a tag from its opener on. */
  function Opened(opener: string, name: string, rest: string): string {
    opener + (name + ("]" + rest))
  }

  lemma BlockedTag(opener: string, name: string, rest: string)
    requires (opener == LEDGER || opener == SECOND) && Blocked(name)
    ensures !AllSpace(RemoveTags(Opened(opener, name, rest)))
  {
    var t := Opened(opener, name, rest);
    OpenerOfTag(opener, name + ("]" + rest));
    ClosingAppend(name, "]" + rest);
    assert t[0] == '[';
    LeavesFirst(t);
  }

  lemma WholeTag(opener: string, name: string, rest: string)
    requires (opener == LEDGER || opener == SECOND) && Clean(name)
    ensures RemoveTags(Opened(opener, name, rest)) == RemoveTags(rest)
  {
    var t := Opened(opener, name, rest);
    OpenerOfTag(opener, name + ("]" + rest));
    ClosingOfName(name, rest);
    assert name + "]" + rest == name + ("]" + rest);
    assert t[0] == '[' && MatchLen(t) == |opener| + |name| + 1;
    assert t == (opener + name + "]") + rest;
    assert t[|opener| + |name| + 1..] == rest;
    DropMatch(MatchLen, t, rest);
  }

  lemma SplitText(opener: string, name: string, rest: string, i: nat)
    requires i < |name|
    ensures Opened(opener, name, rest)[|opener| + i + 1..] == name[i + 1..] + ("]" + rest)
  {
    var (a, b) := (name[..i + 1], name[i + 1..]);
    assert name == a + b;
    Assoc(a, b, "]" + rest);
    Assoc(opener, a, b + ("]" + rest));
  }

  lemma SplitMatch(opener: string, name: string, rest: string, i: nat)
    requires (opener == LEDGER || opener == SECOND) && Closing(name) == Some(i)
    ensures MatchLen(Opened(opener, name, rest)) == |opener| + i + 1
  {
    OpenerOfTag(opener, name + ("]" + rest));
    ClosingAppend(name, "]" + rest);
    assert Opened(opener, name, rest)[0] == '[';
  }

  lemma SplitTag(opener: string, name: string, rest: string, i: nat)
    requires (opener == LEDGER || opener == SECOND) && Closing(name) == Some(i)
    ensures RemoveTags(Opened(opener, name, rest)) == RemoveTags(name[i + 1..] + ("]" + rest))
  {
    SplitMatch(opener, name, rest, i);
    SplitText(opener, name, rest, i);
    DropMatch(MatchLen, Opened(opener, name, rest), name[i + 1..] + ("]" + rest));
  }

  lemma OpenerParts(s: string)
    requires Opener(s) > 0
    ensures s[..Opener(s)] == LEDGER || s[..Opener(s)] == SECOND
    ensures s == s[..Opener(s)] + s[Opener(s)..]
  {
  }

  lemma NoOpenerLeaves(y: string, rest: string)
    requires (y == "" || !Space(y[0])) && Opener(y) == 0
    ensures !AllSpace(RemoveTags(y + ("]" + rest)))
  {
    var t := y + ("]" + rest);
    PrefixAppend(LEDGER, y, "]" + rest);
    PrefixAppend(SECOND, y, "]" + rest);
    assert t[0] == if y == "" then ']' else y[0];
    LeavesFirst(t);
  }

  /** A tag followed by other text leaves nothing but spaces exactly when its name is held and the rest leaves
      nothing. */
  lemma {:induction false} TagLeaves(opener: string, name: string, rest: string)
    requires opener == LEDGER || opener == SECOND
    ensures AllSpace(RemoveTags(Opened(opener, name, rest))) <==> Held(name) && AllSpace(RemoveTags(rest))
    decreases |name|, 0
  {
    ClosingCases(name);
    if Blocked(name) {
      BlockedTag(opener, name, rest);
    } else if Closing(name).None? {
      WholeTag(opener, name, rest);
    } else {
      var i := Closing(name).value;
      SplitTag(opener, name, rest, i);
      RestLeaves(name[i + 1..], rest);
    }
  }

  lemma Assoc(a: string, b: string, c: string)
    ensures (a + b) + c == a + (b + c)
  {
  }

  lemma FrontLeaves(x: string, t: string)
    requires t != ""
    ensures AllSpace(RemoveTags(x + t)) <==> AllSpace(RemoveTags(LeftStrip(x) + t))
  {
    var y := LeftStrip(x);
    var front := LeftStripDrops(x);
    Assoc(front, y, t);
    SpacesInFront(front, y + t);
  }

  lemma {:induction false} RestLeaves(x: string, rest: string)
    ensures var y := LeftStrip(x);
            AllSpace(RemoveTags(x + ("]" + rest))) <==>
            Opener(y) > 0 && Held(y[Opener(y)..]) && AllSpace(RemoveTags(rest))
    decreases |x|, 1
  {
    var y := LeftStrip(x);
    FrontLeaves(x, "]" + rest);
    if Opener(y) == 0 {
      NoOpenerLeaves(y, rest);
    } else {
      OpenerParts(y);
      var (o, n) := (y[..Opener(y)], y[Opener(y)..]);
      assert y + ("]" + rest) == Opened(o, n, rest);
      TagLeaves(o, n, rest);
    }
  }

  lemma TagIsOpened(opener: string, name: string, rest: string)
    requires name != ""
    ensures Tag(opener, name) + rest == Opened(opener, name, rest)
  {
  }

  lemma LastLeaves(second: string)
    ensures AllSpace(RemoveTags(Tail("", second))) <==> NameHeld(second)
    ensures second != "" ==> (AllSpace(RemoveTags(Tail("", second)[1..])) <==> NameHeld(second))
  {
    assert RemoveTags("") == "";
    if second != "" {
      TagLeaves(SECOND, second, "");
      TagIsOpened(SECOND, second, "");
      var t := Tag(SECOND, second) + "";
      assert Tail("", second) == " " + t && (" " + t)[1..] == t;
      OneSpace(' ', t);
    }
  }

  /** The tags of two names leave nothing but spaces exactly when both names are held. */
  lemma TailLeaves(ledger: string, second: string)
    ensures AllSpace(RemoveTags(Tail(ledger, second))) <==> NameHeld(ledger) && NameHeld(second)
    ensures Tail(ledger, second) != "" ==>
              (AllSpace(RemoveTags(Tail(ledger, second)[1..])) <==> NameHeld(ledger) && NameHeld(second))
  {
    LastLeaves(second);
    if ledger != "" {
      var rest := Tail("", second);
      TailSplits(ledger, second);
      TagLeaves(LEDGER, ledger, rest);
      TagIsOpened(LEDGER, ledger, rest);
      OneSpace(' ', Tag(LEDGER, ledger) + rest);
      assert " " + (Tag(LEDGER, ledger) + rest) == [' '] + (Tag(LEDGER, ledger) + rest);
    }
  }

  lemma RightStripStep(s: string, c: char)
    ensures RightStrip(s + [c]) == if Space(c) then RightStrip(s) else s + [c]
  {
    assert (s + [c])[..|s|] == s;
  }

  lemma LastSplits(note: string, r: string)
    requires r != ""
    ensures var n := |r| - 1; note + r == (note + r[..n]) + [r[n]] && (AllSpace(r) <==> AllSpace(r[..n]) && Space(r[n]))
  {
    assert r == r[..|r| - 1] + [r[|r| - 1]];
  }

  lemma {:induction false} RightStripSpaces(note: string, r: string)
    requires note == "" || !Space(note[|note| - 1])
    ensures RightStrip(note + r) == note <==> AllSpace(r)
    ensures |note| <= |RightStrip(note + r)|
  {
    if r == "" {
      assert note + r == note;
    } else {
      var n := |r| - 1;
      LastSplits(note, r);
      RightStripStep(note + r[..n], r[n]);
      if Space(r[n]) { RightStripSpaces(note, r[..n]); }
    }
  }

  lemma {:induction false} StripSpaces(r: string)
    ensures Strip(r) == "" <==> AllSpace(r)
  {
    var front := LeftStripDrops(r);
    var rest := LeftStrip(r);
    RightStripSpaces("", rest);
    assert "" + rest == rest;
    if rest == "" {
      assert r == front;
    } else {
      assert r[|front|] == rest[0];
    }
  }

  lemma StripAfterNote(note: string, r: string)
    requires note != "" && Stripped(note)
    ensures Strip(note + r) == note <==> AllSpace(r)
  {
    assert (note + r)[0] == note[0];
    assert LeftStrip(note + r) == note + r;
    RightStripSpaces(note, r);
  }

  /** For any two names, and a note in which no tag stands open: taking the tags out of the expanded note gives it back
      exactly when a tag can hold each name. */
  lemma HeldExactly(note: string, ledger: string, second: string)
    requires Stripped(note) && !HasOpenTag(note)
    ensures Untag(Expand(note, ledger, second)) == note <==> NameHeld(ledger) && NameHeld(second)
  {
    var tail := Tail(ledger, second);
    ExpandIsNoteAndTail(note, ledger, second);
    TailLeaves(ledger, second);
    TailEnds(ledger, second);
    if note == "" {
      StripSpaces(RemoveTags(Expand(note, ledger, second)));
      assert note + tail == tail;
    } else {
      RemoveTagsKeeps(note, tail);
      StripAfterNote(note, RemoveTags(tail));
    }
  }
}
