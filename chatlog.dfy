/** The chat-history file format: save_chat_history writes one
    "**Role:** text" line and a blank line per turn, load_chat_history reads
    back every line that carries a role marker. This module holds the two
    directions as functions and proves exactly when reading gives back what
    was written. */
module ChatLog {
  import opened Wrappers
  import opened Text

  /** One (role, text) pair of a chat history. */
  datatype Turn = Turn(role: string, text: string)

  const UserMarker: string := "**User:**"
  const AssistantMarker: string := "**Assistant:**"

  // ---------------------------------------------------------------------
  // Writing
  // ---------------------------------------------------------------------

  /** The line written for one turn: "**{role.capitalize()}:** {text}". */
  function Line(t: Turn): string {
    "**" + Capitalize(t.role) + ":**" + " " + t.text
  }

  /** The line and the blank line that follows it. */
  function Block(t: Turn): string {
    Line(t) + "\n\n"
  }

  /** The whole file written for a history. */
  function Render(turns: seq<Turn>): (r: string)
    ensures |r| == 0 || r[|r| - 1] == '\n'
  {
    if |turns| == 0 then "" else Render(turns[..|turns| - 1]) + Block(turns[|turns| - 1])
  }

  // ---------------------------------------------------------------------
  // Reading
  // ---------------------------------------------------------------------

  /** A turn as the reader produces it: a lower-case known role and a text
      on one line without surrounding whitespace. */
  predicate Canonical(t: Turn) {
    (t.role == "user" || t.role == "assistant") && NoLineBreak(t.text) && Stripped(t.text)
  }

  /** The turn read from one line: the user marker is tested first; every
      occurrence of the marker found is deleted and the rest stripped; a line
      without a marker gives nothing. */
  function ParseLine(line: string): (r: Option<Turn>)
    ensures r.Some? <==> Contains(line, UserMarker) || Contains(line, AssistantMarker)
    ensures r.Some? && NoLineBreak(line) ==> Canonical(r.value)
  {
    if Contains(line, UserMarker) then
      Some(Turn("user", MarkerRemoved(line, UserMarker)))
    else if Contains(line, AssistantMarker) then
      Some(Turn("assistant", MarkerRemoved(line, AssistantMarker)))
    else None
  }

  /** The line with every occurrence of the marker deleted, then stripped. */
  function MarkerRemoved(line: string, marker: string): (r: string)
    requires |marker| > 0
    ensures Stripped(r)
    ensures NoLineBreak(line) ==> NoLineBreak(r)
  {
    var rest := ReplaceAll(line, marker, "");
    if NoLineBreak(line) then
      RemoveNoBreak(line, marker);
      StripNoBreak(rest);
      Strip(rest)
    else Strip(rest)
  }

  function OptionToSeq(o: Option<Turn>): seq<Turn> {
    if o.Some? then [o.value] else []
  }

  /** The turns read from a list of lines, in order. */
  function ParseLines(lines: seq<string>): (r: seq<Turn>)
    requires forall l :: l in lines ==> NoLineBreak(l)
    ensures forall t :: t in r ==> Canonical(t)
  {
    if |lines| == 0 then []
    else
      assert lines[|lines| - 1] in lines;
      ParseLines(lines[..|lines| - 1]) + OptionToSeq(ParseLine(lines[|lines| - 1]))
  }

  /** The history read from a file's content. */
  function Parse(content: string): (r: seq<Turn>)
    ensures forall t :: t in r ==> Canonical(t)
  {
    ParseLines(SplitLines(content))
  }

  // ---------------------------------------------------------------------
  // When reading gives back what was written
  // ---------------------------------------------------------------------

  /** A history with every role lower-cased, which is what the reader
      reports for the roles it recognises. */
  function Normalized(turns: seq<Turn>): (r: seq<Turn>)
    ensures |r| == |turns|
    ensures forall i :: 0 <= i < |turns| ==> r[i] == Turn(Lower(turns[i].role), turns[i].text)
  {
    seq(|turns|, i requires 0 <= i < |turns| => Turn(Lower(turns[i].role), turns[i].text))
  }

  predicate KnownRole(t: Turn) {
    Lower(t.role) == "user" || Lower(t.role) == "assistant"
  }

  /** The condition on a turn's text under which its line is read back as
      the same text: no surrounding whitespace, and no marker the reader
      would act on ("**User:**" always, "**Assistant:**" in an assistant
      turn). */
  predicate TextSurvives(t: Turn) {
    && Stripped(t.text)
    && !Contains(t.text, UserMarker)
    && (Lower(t.role) == "assistant" ==> !Contains(t.text, AssistantMarker))
  }

  /** The condition on one turn under which it survives a save and a load:
      a role that is "user" or "assistant" in any case, a one-line text, and
      TextSurvives. */
  predicate Faithful(t: Turn) {
    KnownRole(t) && NoLineBreak(t.text) && TextSurvives(t)
  }

  predicate AllFaithful(turns: seq<Turn>) {
    forall i :: 0 <= i < |turns| ==> Faithful(turns[i])
  }

  /** For a known role, the written line is read back as a turn, and as
      exactly that turn (role lower-cased) if and only if TextSurvives. */
  lemma LineRoundTrip(t: Turn)
    requires KnownRole(t)
    ensures ParseLine(Line(t)).Some?
    ensures ParseLine(Line(t)) == Some(Turn(Lower(t.role), t.text)) <==> TextSurvives(t)
  {
    if Lower(t.role) == "user" {
      UserLine(t);
      TextBack(t.text, UserMarker);
    } else {
      AssistantLine(t);
      if !Contains(t.text, UserMarker) {
        TextBack(t.text, AssistantMarker);
      }
    }
  }

  /** A user turn is read back with its text run through MarkerRemoved. */
  lemma UserLine(t: Turn)
    requires Lower(t.role) == "user"
    ensures ParseLine(Line(t)) == Some(Turn("user", Strip(" " + ReplaceAll(t.text, UserMarker, ""))))
  {
    LineShape(t);
    assert StartsWith(Line(t), UserMarker);
    ReplaceAroundSpace(UserMarker, t.text, UserMarker, "");
    RemoveWhole(UserMarker);
  }

  /** An assistant turn is read back as a user turn if its text holds the
      user marker, and otherwise with its text run through MarkerRemoved. */
  lemma AssistantLine(t: Turn)
    requires Lower(t.role) == "assistant"
    ensures ParseLine(Line(t)).Some?
    ensures ParseLine(Line(t)).value.role == "user" <==> Contains(t.text, UserMarker)
    ensures !Contains(t.text, UserMarker) ==>
      ParseLine(Line(t)) == Some(Turn("assistant", Strip(" " + ReplaceAll(t.text, AssistantMarker, ""))))
  {
    LineShape(t);
    UserInAssistantLine(t.text);
    if !Contains(t.text, UserMarker) {
      ReplaceAroundSpace(AssistantMarker, t.text, AssistantMarker, "");
      RemoveWhole(AssistantMarker);
    }
  }

  /** An assistant line holds the user marker exactly when its text does,
      and it always holds the assistant marker. */
  lemma UserInAssistantLine(text: string)
    ensures Contains(AssistantMarker + " " + text, AssistantMarker)
    ensures Contains(AssistantMarker + " " + text, UserMarker) <==> Contains(text, UserMarker)
  {
    assert StartsWith(AssistantMarker + " " + text, AssistantMarker);
    ContainsAroundSpace(AssistantMarker, text, UserMarker);
    MarkersApart();
  }

  /** The line of a known role starts with that role's marker. */
  lemma LineShape(t: Turn)
    requires KnownRole(t)
    ensures Line(t) == (if Lower(t.role) == "user" then UserMarker else AssistantMarker) + " " + t.text
  {
    if Lower(t.role) == "user" {
      CapitalizedUser(t.role);
      MarkerLine(t, "User", UserMarker);
    } else {
      CapitalizedAssistant(t.role);
      MarkerLine(t, "Assistant", AssistantMarker);
    }
  }

  lemma CapitalizedUser(role: string)
    requires Lower(role) == "user"
    ensures Capitalize(role) == "User"
  {
    CapitalizeOfLowerWord(role, "user");
    assert "user"[1..] == "ser";
  }

  lemma CapitalizedAssistant(role: string)
    requires Lower(role) == "assistant"
    ensures Capitalize(role) == "Assistant"
  {
    CapitalizeOfLowerWord(role, "assistant");
    assert "assistant"[1..] == "ssistant";
  }

  lemma MarkerLine(t: Turn, word: string, marker: string)
    requires Capitalize(t.role) == word && marker == "**" + word + ":**"
    ensures Line(t) == marker + " " + t.text
  {
  }

  /** Deleting a marker from itself leaves nothing. */
  lemma RemoveWhole(m: string)
    requires |m| > 0
    ensures ReplaceAll(m, m, "") == ""
    ensures forall t :: ReplaceAll(m, m, "") + " " + t == " " + t
  {
    assert m[..|m|] == m;
    assert m[|m|..] == "";
  }

  /** Deleting a marker of two or more characters from " " + text and
      stripping gives text back exactly when text has no surrounding
      whitespace and no marker. */
  lemma TextBack(text: string, m: string)
    requires |m| >= 2
    ensures Strip(" " + ReplaceAll(text, m, "")) == text <==> Stripped(text) && !Contains(text, m)
  {
    RemoveShortens(text, m);
    if Stripped(text) && !Contains(text, m) {
      ReplaceAbsent(text, m, "");
      StripAfterSpace(text);
    }
  }

  /** The assistant marker does not contain the user marker. */
  lemma MarkersApart()
    ensures !Contains(AssistantMarker, UserMarker)
  {
    assert 'U' !in AssistantMarker;
    if Contains(AssistantMarker, UserMarker) {
      ContainsHasChar(AssistantMarker, UserMarker, 2);
    }
  }

  lemma {:induction false} ContainsHasChar(s: string, p: string, k: nat)
    requires Contains(s, p) && k < |p|
    ensures p[k] in s
    decreases |s|
  {
    if StartsWith(s, p) {
      assert s[k] == p[k];
    } else {
      ContainsHasChar(s[1..], p, k);
      assert s[1..] <= s[1..];
      var j :| 0 <= j < |s[1..]| && s[1..][j] == p[k];
      assert s[j + 1] == p[k];
    }
  }

  /** The line of a known role with a one-line text is itself one line. */
  lemma LineNoBreak(t: Turn)
    requires KnownRole(t) && NoLineBreak(t.text)
    ensures NoLineBreak(Line(t))
  {
    LineShape(t);
    MarkersOneLine();
    if Lower(t.role) == "user" {
      ConcatNoBreak(UserMarker + " ", t.text);
    } else {
      ConcatNoBreak(AssistantMarker + " ", t.text);
    }
  }

  lemma MarkersOneLine()
    ensures NoLineBreak(UserMarker + " ") && NoLineBreak(AssistantMarker + " ")
  {
  }

  /** What reading a written file gives, turn by turn, when no line has a
      break inside it. */
  function Reparsed(turns: seq<Turn>): seq<Turn> {
    if |turns| == 0 then []
    else Reparsed(turns[..|turns| - 1]) + OptionToSeq(ParseLine(Line(turns[|turns| - 1])))
  }

  /** Splitting a written file gives back its lines (each followed by a
      blank line), so reading it is Reparsed. */
  lemma {:induction false} ParseRender(turns: seq<Turn>)
    requires forall i :: 0 <= i < |turns| ==> NoLineBreak(Line(turns[i]))
    ensures Parse(Render(turns)) == Reparsed(turns)
  {
    if |turns| == 0 {
      assert SplitLines("") == [];
    } else {
      var init, last := turns[..|turns| - 1], turns[|turns| - 1];
      ParseRender(init);
      var a := Render(init);
      SplitLinesAppend(a, Block(last));
      SplitLinesBlock(Line(last));
      var ls := SplitLines(a);
      assert SplitLines(Render(turns)) == ls + [Line(last), ""];
      ParseLinesSnoc(ls + [Line(last)], "");
      assert ls + [Line(last), ""] == ls + [Line(last)] + [""];
      ParseLinesSnoc(ls, Line(last));
      assert ParseLine("") == None;
    }
  }

  /** Reading one more line adds what that line gives. */
  lemma ParseLinesSnoc(ls: seq<string>, l: string)
    requires forall x :: x in ls ==> NoLineBreak(x)
    requires NoLineBreak(l)
    ensures ParseLines(ls + [l]) == ParseLines(ls) + OptionToSeq(ParseLine(l))
  {
    assert (ls + [l])[..|ls|] == ls;
  }

  /** For known roles every turn yields exactly one parsed turn. */
  lemma {:induction false} ReparsedAt(turns: seq<Turn>)
    requires forall i :: 0 <= i < |turns| ==> KnownRole(turns[i])
    ensures |Reparsed(turns)| == |turns|
    ensures forall i :: 0 <= i < |turns| ==> Some(Reparsed(turns)[i]) == ParseLine(Line(turns[i]))
  {
    if |turns| > 0 {
      var init, last := turns[..|turns| - 1], turns[|turns| - 1];
      ReparsedAt(init);
      LineRoundTrip(last);
      var p := ParseLine(Line(last));
      var r := Reparsed(turns);
      assert r == Reparsed(init) + [p.value];
      forall i | 0 <= i < |turns| ensures Some(r[i]) == ParseLine(Line(turns[i])) {
        if i < |init| {
          assert turns[i] == init[i];
          assert r[i] == Reparsed(init)[i];
        } else {
          assert i == |init|;
          assert turns[i] == last;
          assert r[i] == p.value;
          assert p.Some?;
        }
      }
    }
  }

  /** The round trip of the chat-history file: loading what was saved gives
      the history back, roles lower-cased, if and only if every turn is
      Faithful. Otherwise the file is lossy: an unknown role is dropped, a
      line break splits a turn, whitespace is stripped, a marker in the text
      is deleted or turns an assistant turn into a user turn. */
  lemma RoundTrip(turns: seq<Turn>)
    ensures Parse(Render(turns)) == Normalized(turns) <==> AllFaithful(turns)
  {
    var p := Parse(Render(turns));
    var n := Normalized(turns);
    if AllFaithful(turns) || p == n {
      forall i | 0 <= i < |turns| ensures KnownRole(turns[i]) && NoLineBreak(turns[i].text) {
        if p == n {
          assert n[i] in p;
        }
      }
      forall i | 0 <= i < |turns| ensures NoLineBreak(Line(turns[i])) {
        LineNoBreak(turns[i]);
      }
      ParseRender(turns);
      ReparsedAt(turns);
      forall i | 0 <= i < |turns| ensures Some(n[i]) == ParseLine(Line(turns[i])) <==> TextSurvives(turns[i]) {
        LineRoundTrip(turns[i]);
      }
      if AllFaithful(turns) {
        assert p == n;
      }
    }
  }

  /** Appending one turn to a history that was read from a file, and saving,
      adds exactly that turn (role lower-cased) to what is read next, as long
      as the history and the turn are Faithful. */
  lemma AppendRoundTrip(history: seq<Turn>, t: Turn)
    requires forall i :: 0 <= i < |history| ==> Canonical(history[i])
    requires AllFaithful(history + [t])
    ensures Parse(Render(history + [t])) == history + [Turn(Lower(t.role), t.text)]
  {
    RoundTrip(history + [t]);
    NormalizedSnoc(history, t);
  }

  /** Normalising a read history followed by one turn lower-cases that turn's
      role only. */
  lemma NormalizedSnoc(history: seq<Turn>, t: Turn)
    requires forall i :: 0 <= i < |history| ==> Canonical(history[i])
    ensures Normalized(history + [t]) == history + [Turn(Lower(t.role), t.text)]
  {
    var n := Normalized(history + [t]);
    var want := history + [Turn(Lower(t.role), t.text)];
    forall i | 0 <= i < |want| ensures n[i] == want[i] {
      if i < |history| {
        assert (history + [t])[i] == history[i];
        CanonicalRole(history[i]);
      } else {
        assert (history + [t])[i] == t;
      }
    }
  }

  /** A role the reader produced is already lower-case. */
  lemma CanonicalRole(t: Turn)
    requires Canonical(t)
    ensures Lower(t.role) == t.role
  {
    if t.role == "user" {
      assert Lower(t.role) == "user";
    } else {
      assert Lower(t.role) == "assistant";
    }
  }
}
