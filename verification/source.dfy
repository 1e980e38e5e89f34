/** The character cursor the older lexer reads from: it holds the current
    character (or "" past the end of input) and its line and column. The
    input is an in-memory string rather than a file. */
module CharSource {

  /** The character at index `i` as a one-character string, or "" once the
      input is exhausted (what a one-character read returns at end of file). */
  function CharAt(text: string, i: nat): (c: string)
    ensures |c| <= 1
    ensures c == "" <==> i >= |text|
    ensures i < |text| ==> c == [text[i]]
  {
    if i < |text| then [text[i]] else ""
  }

  function Min(a: nat, b: nat): nat {
    if a <= b then a else b
  }

  /** Number of newline characters in `s`. */
  function Newlines(s: string): (n: nat)
    ensures n <= |s|
  {
    if |s| == 0 then 0
    else Newlines(s[..|s| - 1]) + (if s[|s| - 1] == '\n' then 1 else 0)
  }

  /** Number of characters after the last newline of `s` (all of them when
      there is none). */
  function SinceNewline(s: string): (n: nat)
    ensures n <= |s|
  {
    if |s| == 0 then 0
    else if s[|s| - 1] == '\n' then 0
    else SinceNewline(s[..|s| - 1]) + 1
  }

  /** The line reported while the cursor sits on index `i`: it starts at 1
      and grows by one with every newline read. */
  function LineAt(text: string, i: nat): int {
    (if i == 0 then 1 else LineAt(text, i - 1)) + (if CharAt(text, i) == "\n" then 1 else 0)
  }

  /** The column reported while the cursor sits on index `i`: every read
      adds one, and a newline resets it to 0. */
  function ColumnAt(text: string, i: nat): int {
    if CharAt(text, i) == "\n" then 0
    else (if i == 0 then 0 else ColumnAt(text, i - 1)) + 1
  }

  // ---------------------------------------------------------------------
  // The cursor

  class Source {
    const text: string
    /** Index of the current character: the number of reads made minus one. */
    var index: nat
    var currentChar: string
    var currentLine: int
    var currentColumn: int

    /** The three visible fields agree with the position reached. */
    predicate Valid()
      reads this
    {
      currentChar == CharAt(text, index)
      && currentLine == LineAt(text, index)
      && currentColumn == ColumnAt(text, index)
    }

    /** A new cursor starts at line 1, column 0 and reads the first
        character at once. */
    constructor (text: string)
      ensures Valid() && this.text == text && index == 0
      ensures currentChar == CharAt(text, 0)
      ensures currentChar == "\n" ==> currentLine == 2 && currentColumn == 0
      ensures currentChar != "\n" ==> currentLine == 1 && currentColumn == 1
    {
      this.text := text;
      currentLine := 1;
      currentColumn := 0;
      index := 0;
      new;
      currentChar := CharAt(text, 0);
      currentColumn := currentColumn + 1;
      if currentChar == "\n" {
        currentLine := currentLine + 1;
        currentColumn := 0;
      }
    }

    /** `move_to_next_char`: read one more character (or "" at the end),
        advance the column, and on a newline advance the line and reset the
        column to 0. Returns the new current character. */
    method MoveToNextChar() returns (c: string)
      requires Valid()
      modifies this
      ensures Valid() && index == old(index) + 1 && c == currentChar
      ensures c == CharAt(text, old(index) + 1)
      ensures c == "\n" ==> currentLine == old(currentLine) + 1 && currentColumn == 0
      ensures c != "\n" ==> currentLine == old(currentLine) && currentColumn == old(currentColumn) + 1
      ensures old(currentChar) == "" ==> c == ""
    {
      index := index + 1;
      currentChar := CharAt(text, index);
      currentColumn := currentColumn + 1;
      if currentChar == "\n" {
        currentLine := currentLine + 1;
        currentColumn := 0;
      }
      c := currentChar;
    }
  }

  // ---------------------------------------------------------------------
  // Lemmas

  /** The line is one plus the newlines read so far, the character under
      the cursor included. */
  lemma {:induction false} LineCountsNewlines(text: string, i: nat)
    ensures LineAt(text, i) == 1 + Newlines(text[..Min(i + 1, |text|)])
  {
    if i > 0 {
      LineCountsNewlines(text, i - 1);
      if i < |text| {
        assert text[..i + 1][..i] == text[..i];
      }
    }
  }

  /** The column counts the characters read since the last newline, plus
      one for every read past the end of input. */
  lemma {:induction false} ColumnCountsSinceNewline(text: string, i: nat)
    ensures i < |text| ==> ColumnAt(text, i) == SinceNewline(text[..i + 1])
    ensures i >= |text| ==> ColumnAt(text, i) == SinceNewline(text) + (i + 1 - |text|)
  {
    if i > 0 {
      ColumnCountsSinceNewline(text, i - 1);
      if i < |text| {
        assert text[..i + 1][..i] == text[..i];
      } else if i == |text| {
        assert text[..i] == text;
      }
    }
  }

  /** `Newlines` counts exactly the newline characters. */
  lemma {:induction false} NewlinesCounts(s: string)
    ensures Newlines(s) == multiset(s)['\n']
  {
    if |s| > 0 {
      NewlinesCounts(s[..|s| - 1]);
      assert s == s[..|s| - 1] + [s[|s| - 1]];
      assert multiset(s) == multiset(s[..|s| - 1]) + multiset{s[|s| - 1]};
    }
  }

  /** `SinceNewline` counts the characters after the last newline: none of
      them is a newline, and the character just before them is one (unless
      they are the whole string). */
  lemma {:induction false} SinceNewlineCounts(s: string)
    ensures forall k | |s| - SinceNewline(s) <= k < |s| :: s[k] != '\n'
    ensures SinceNewline(s) < |s| ==> s[|s| - 1 - SinceNewline(s)] == '\n'
  {
    if |s| > 0 && s[|s| - 1] != '\n' {
      var p := s[..|s| - 1];
      SinceNewlineCounts(p);
      assert forall k | 0 <= k < |p| :: s[k] == p[k];
    }
  }
}
