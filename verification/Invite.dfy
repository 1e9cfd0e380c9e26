/** Invite codes: how one is generated, and how a retyped one is read back. */
module Invite {
  const ALPHABET: string := "ACDEFGHJKMNPQRTWXY34679"
  const GROUPS: nat := 4
  const GROUP_LENGTH: nat := 4
  const LETTERS: nat := 16
  const MARK: string := "MMV"

  predicate IsAlphanumeric(c: char) {
    '0' <= c <= '9' || 'A' <= c <= 'Z' || 'a' <= c <= 'z'
  }

  function Upper(c: char): (u: char) {
    if 'a' <= c <= 'z' then c - 'a' + 'A' else c
  }

  /** Only letters and digits of the ASCII range stay, in upper case. */
  function Clean(raw: string): (s: string) {
    if raw == "" then ""
    else (if IsAlphanumeric(raw[0]) then [Upper(raw[0])] else "") + Clean(raw[1..])
  }

  function Dashed(body: string): (code: string)
    requires |body| == LETTERS
  {
    MARK + "-" + body[..4] + "-" + body[4..8] + "-" + body[8..12] + "-" + body[12..]
  }

  predicate Marked(s: string) {
    |s| >= 3 && s[..3] == MARK
  }

  function Normalize(raw: string): (code: string) {
    var cleaned := Clean(raw);
    var body := if Marked(cleaned) then cleaned[3..] else cleaned;
    if |body| != LETTERS then cleaned else Dashed(body)
  }

  predicate IsClean(s: string) {
    forall i :: 0 <= i < |s| ==> IsAlphanumeric(s[i]) && Upper(s[i]) == s[i]
  }

  lemma {:induction false} CleanIsClean(raw: string)
    ensures IsClean(Clean(raw))
  {
    if raw != "" { CleanIsClean(raw[1..]); }
  }

  lemma {:induction false} CleanKeepsClean(s: string)
    requires IsClean(s)
    ensures Clean(s) == s
  {
    if s != "" { CleanKeepsClean(s[1..]); }
  }

  lemma CleanFirst(s: string)
    requires s != ""
    ensures Clean(s) == (if IsAlphanumeric(s[0]) then [Upper(s[0])] else "") + Clean(s[1..])
  {
  }

  lemma {:induction false} CleanOfConcat(s: string, t: string)
    ensures Clean(s + t) == Clean(s) + Clean(t)
  {
    if s == "" {
      assert s + t == t;
    } else {
      assert (s + t)[1..] == s[1..] + t;
      CleanOfConcat(s[1..], t);
      CleanFirst(s);
      CleanFirst(s + t);
    }
  }

  /** Cleaning a code takes its dashes out again. */
  lemma CleanOfDashed(body: string)
    requires |body| == LETTERS && IsClean(body)
    ensures Clean(Dashed(body)) == MARK + body
  {
    var a, b, c, d := body[..4], body[4..8], body[8..12], body[12..];
    CleanOfGroup(MARK, a);
    CleanOfGroup(MARK + "-" + a, b);
    CleanOfGroup(MARK + "-" + a + "-" + b, c);
    CleanOfGroup(MARK + "-" + a + "-" + b + "-" + c, d);
    CleanKeepsClean(MARK);
    assert MARK + a + b + c + d == MARK + body;
  }

  lemma DashIsDropped()
    ensures Clean("-") == ""
  {
    assert "-"[1..] == "";
  }

  lemma CleanOfParts(before: string, dropped: string, group: string)
    requires Clean(dropped) == "" && Clean(group) == group
    ensures Clean(before + dropped + group) == Clean(before) + group
  {
    var start := before + dropped;
    CleanOfConcat(start, group);
    CleanOfConcat(before, dropped);
    assert Clean(before) + "" == Clean(before);
  }

  lemma CleanOfGroup(before: string, group: string)
    requires IsClean(group)
    ensures Clean(before + "-" + group) == Clean(before) + group
  {
    DashIsDropped();
    CleanKeepsClean(group);
    CleanOfParts(before, "-", group);
  }

  /** Whatever was typed, reading the code it came to gives that code again. */
  lemma NormalizeTwice(raw: string)
    ensures Normalize(Normalize(raw)) == Normalize(raw)
  {
    var cleaned := Clean(raw);
    var body := if Marked(cleaned) then cleaned[3..] else cleaned;
    CleanIsClean(raw);
    if |body| == LETTERS {
      CleanOfDashed(body);
      assert (MARK + body)[..3] == MARK && (MARK + body)[3..] == body;
    } else {
      CleanKeepsClean(cleaned);
    }
  }

  lemma DashedLetters(body: string)
    requires |body| == LETTERS
    ensures var d := Dashed(body);
            |d| == 23 && d[4..8] == body[..4] && d[9..13] == body[4..8] && d[14..18] == body[8..12]
  {
  }

  lemma DashedTail(body: string)
    requires |body| == LETTERS
    ensures |Dashed(body)| == 23 && Dashed(body)[19..] == body[12..]
  {
  }

  lemma DashedInjective(a: string, b: string)
    requires |a| == LETTERS == |b| && Dashed(a) == Dashed(b)
    ensures a == b
  {
    DashedLetters(a);
    DashedLetters(b);
    DashedTail(a);
    DashedTail(b);
    assert a == a[..4] + a[4..8] + a[8..12] + a[12..];
    assert b == b[..4] + b[4..8] + b[8..12] + b[12..];
  }

  /**
   What is read as a given code: its letters with the mark, or without it unless they begin
   with the mark's own letters.
   */
  lemma ReadAsIff(raw: string, body: string)
    requires |body| == LETTERS && IsClean(body)
    ensures Normalize(raw) == Dashed(body) <==> Clean(raw) == MARK + body || (Clean(raw) == body && !Marked(body))
  {
    var cleaned := Clean(raw);
    var inner := if Marked(cleaned) then cleaned[3..] else cleaned;
    assert (MARK + body)[..3] == MARK && (MARK + body)[3..] == body;
    CleanIsClean(raw);
    if |inner| != LETTERS {
      assert Dashed(body)[3] == '-';
    } else if Dashed(inner) == Dashed(body) {
      DashedInjective(inner, body);
      assert Marked(cleaned) ==> cleaned == MARK + cleaned[3..];
    }
  }

  predicate Generated(body: string) {
    |body| == LETTERS && forall i :: 0 <= i < |body| ==> body[i] in ALPHABET
  }

  lemma AlphabetLacksTheMark()
    ensures 'V' !in ALPHABET && IsClean(ALPHABET)
  {
  }

  /** The alphabet has no `V`, so a generated code is read back from its letters with or without the mark. */
  lemma RetypedCodeIsRead(raw: string, body: string)
    requires Generated(body)
    ensures Normalize(raw) == Dashed(body) <==> Clean(raw) == MARK + body || Clean(raw) == body
  {
    AlphabetLacksTheMark();
    forall i | 0 <= i < |body| ensures IsAlphanumeric(body[i]) && Upper(body[i]) == body[i] && body[i] != 'V' {
      var k :| 0 <= k < |ALPHABET| && ALPHABET[k] == body[i];
    }
    assert body[..3][2] == body[2] && MARK[2] == 'V';
    ReadAsIff(raw, body);
  }

  function Letters(choices: seq<nat>): (body: string)
    requires forall i :: 0 <= i < |choices| ==> choices[i] < |ALPHABET|
  {
    seq(|choices|, i requires 0 <= i < |choices| => ALPHABET[choices[i]])
  }

  // ---- Retyping ---------------------------------------------------------------------

  /** The letter was typed as it is written, or in lower case. */
  predicate TypedAs(typed: char, c: char) {
    typed == c || ('A' <= c <= 'Z' && typed as int == c as int + 32)
  }

  predicate IsSeparator(c: char) {
    !('0' <= c <= '9') && !('A' <= c <= 'Z') && !('a' <= c <= 'z')
  }

  /** `raw` is `text` retyped, in any casing and with any separators anywhere. */
  predicate Retypes(raw: string, text: string) {
    if raw == "" then text == ""
    else if IsSeparator(raw[0]) then Retypes(raw[1..], text)
    else text != "" && TypedAs(raw[0], text[0]) && Retypes(raw[1..], text[1..])
  }

  predicate Capital(text: string) {
    forall i :: 0 <= i < |text| ==> '0' <= text[i] <= '9' || 'A' <= text[i] <= 'Z'
  }

  lemma {:induction false} RetypedIffCleans(raw: string, text: string)
    requires Capital(text)
    ensures Retypes(raw, text) <==> Clean(raw) == text
  {
    if raw != "" {
      if IsSeparator(raw[0]) {
        RetypedIffCleans(raw[1..], text);
      } else {
        CleanFirst(raw);
        if text != "" {
          RetypedIffCleans(raw[1..], text[1..]);
          assert text == [text[0]] + text[1..];
          TypedIffUpper(raw[0], text[0]);
        }
      }
    }
  }

  lemma TypedIffUpper(typed: char, c: char)
    requires !IsSeparator(typed) && ('0' <= c <= '9' || 'A' <= c <= 'Z')
    ensures TypedAs(typed, c) <==> Upper(typed) == c
  {
  }

  /** A generated code is read from every retyping of its letters, with the mark or without, and from nothing else. */
  lemma ReadIffRetyped(raw: string, body: string)
    requires Generated(body)
    ensures Normalize(raw) == Dashed(body) <==> Retypes(raw, "MMV" + body) || Retypes(raw, body)
  {
    forall i | 0 <= i < |body| ensures '0' <= body[i] <= '9' || 'A' <= body[i] <= 'Z' {
      var k :| 0 <= k < |ALPHABET| && ALPHABET[k] == body[i];
    }
    RetypedIffCleans(raw, MARK + body);
    RetypedIffCleans(raw, body);
    RetypedCodeIsRead(raw, body);
  }

  /** The code itself: the mark and four groups of four, with dashes between. */
  lemma CodeShape(body: string)
    requires |body| == LETTERS
    ensures Dashed(body) == "MMV-" + body[..4] + "-" + body[4..8] + "-" + body[8..12] + "-" + body[12..]
  {
  }

  /** `choices` are the random draws, one for each letter. */
  method GenerateInviteCode(choices: seq<nat>) returns (code: string)
    requires |choices| == LETTERS
    requires forall i :: 0 <= i < |choices| ==> choices[i] < |ALPHABET|
    ensures Generated(Letters(choices)) && code == Dashed(Letters(choices))
  {
    ghost var body := Letters(choices);
    var groups: seq<string> := [];
    for g := 0 to GROUPS
      invariant |groups| == g
      invariant forall k :: 0 <= k < g ==> groups[k] == body[4 * k..4 * k + 4]
    {
      var group := "";
      for j := 0 to GROUP_LENGTH
        invariant group == body[4 * g..4 * g + j]
      {
        group := group + [ALPHABET[choices[4 * g + j]]];
      }
      groups := groups + [group];
    }
    code := MARK + "-" + groups[0] + "-" + groups[1] + "-" + groups[2] + "-" + groups[3];
    assert groups[3] == body[12..];
  }
}
