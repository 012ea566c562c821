/**
  The cursor the parser runs over (`ParseInput`, src/parsing.rs). That file is not
  part of this model: the primitives below are the behaviour the formula engine relies
  on, written out as an assumption. A cursor is the text and an offset into it; a save
  point is an offset.

  The pure functions describe the primitives on a text and an offset; the class
  `ParseInput` is the mutable cursor the imperative rules use, each method tied to them.
 */
module Cursor {
  import opened Results

  /** The characters `skip_spaces_and_newlines` skips. */
  predicate IsSpace(c: char)
  {
    c == ' ' || c == '\n'
  }

  predicate IsDigit(c: char)
  {
    '0' <= c <= '9'
  }

  /** ASCII lower-casing, the comparison `match_word_ci` makes. */
  function Lower(c: char): char
  {
    if 'A' <= c <= 'Z' then (c as int - 'A' as int + 'a' as int) as char else c
  }

  /** Every character of `s` lower-cased. */
  function LowerAll(s: string): (r: string)
    ensures |r| == |s| && forall k :: 0 <= k < |s| ==> r[k] == Lower(s[k])
  {
    if s == [] then [] else [Lower(s[0])] + LowerAll(s[1..])
  }

  /** `get_next_char`: the character at the offset, if any. */
  function Peek(s: string, i: nat): Option<char>
  {
    if i < |s| then Some(s[i]) else None
  }

  /** The offset after the run of spaces and newlines that starts at `i`. */
  function SkipSpaces(s: string, i: nat): (j: nat)
    requires i <= |s|
    ensures i <= j <= |s|
    ensures forall k :: i <= k < j ==> IsSpace(s[k])
    ensures j == |s| || !IsSpace(s[j])
    decreases |s| - i
  {
    if i < |s| && IsSpace(s[i]) then SkipSpaces(s, i + 1) else i
  }

  /** The text at `i` begins with the word `w`, exactly. */
  predicate StartsWith(s: string, i: nat, w: string)
  {
    i + |w| <= |s| && forall k :: 0 <= k < |w| ==> s[i + k] == w[k]
  }

  /** The text at `i` begins with the lower-case word `w`, ignoring ASCII case. */
  predicate MatchesCi(s: string, i: nat, w: string)
  {
    i + |w| <= |s| && forall k :: 0 <= k < |w| ==> Lower(s[i + k]) == w[k]
  }

  /** The end of the run of ASCII digits that starts at `i`. */
  function DigitRunEnd(s: string, i: nat): (e: nat)
    requires i <= |s|
    ensures i <= e <= |s|
    ensures forall k :: i <= k < e ==> IsDigit(s[k])
    ensures e == |s| || !IsDigit(s[e])
    decreases |s| - i
  {
    if i < |s| && IsDigit(s[i]) then DigitRunEnd(s, i + 1) else i
  }

  /** The mutable cursor: the text never changes, the offset moves. */
  class ParseInput {
    const text: string
    var offset: nat

    ghost predicate Valid()
      reads this
    {
      offset <= |text|
    }

    constructor (input: string)
      ensures Valid() && text == input && offset == 0
    {
      text := input;
      offset := 0;
    }

    /** `finished`: the whole text has been consumed, so there is no next character. */
    function Finished(): (b: bool)
      requires Valid()
      reads this
      ensures b <==> GetNextChar().None?
    {
      offset == |text|
    }

    /** `create_save_point`: the current offset, always one `LoadSavePoint` accepts. */
    function CreateSavePoint(): (point: nat)
      requires Valid()
      reads this
      ensures point == offset && point <= |text|
    {
      offset
    }

    method LoadSavePoint(point: nat)
      requires point <= |text|
      modifies this
      ensures Valid() && offset == point
    {
      offset := point;
    }

    /** `get_next_char`: the character at the offset, or nothing at the end of the text. */
    function GetNextChar(): (c: Option<char>)
      reads this
      ensures c.Some? <==> offset < |text|
      ensures c.Some? ==> c.value == text[offset]
    {
      Peek(text, offset)
    }

    /** Consumes `c` if it is the next character; otherwise fails and consumes nothing. */
    method SkipChar(c: char) returns (r: Result<()>)
      requires Valid()
      modifies this
      ensures Valid()
      ensures r.Ok? <==> old(offset) < |text| && text[old(offset)] == c
      ensures offset == if r.Ok? then old(offset) + 1 else old(offset)
      ensures r.Err? ==> r.error == UnexpectedChar(c, Peek(text, old(offset)))
    {
      if offset < |text| && text[offset] == c {
        offset := offset + 1;
        return Ok(());
      }
      return Err(UnexpectedChar(c, Peek(text, offset)));
    }

    /** Consumes the word `w` if the text continues with it; otherwise consumes nothing. */
    method SkipWord(w: string) returns (r: Result<()>)
      requires Valid()
      modifies this
      ensures Valid()
      ensures r.Ok? <==> StartsWith(text, old(offset), w)
      ensures offset == if r.Ok? then old(offset) + |w| else old(offset)
      ensures r.Err? ==> r.error == UnexpectedWord(w, Peek(text, old(offset)))
    {
      if StartsWith(text, offset, w) {
        offset := offset + |w|;
        return Ok(());
      }
      return Err(UnexpectedWord(w, Peek(text, offset)));
    }

    /**
      `match_word_ci`, a look-ahead that consumes nothing: the next `|w|` characters,
      lower-cased, spell `w`.
     */
    function MatchWordCi(w: string): (b: bool)
      requires Valid()
      reads this
      ensures b <==> offset + |w| <= |text| && LowerAll(text[offset..offset + |w|]) == w
    {
      MatchesCi(text, offset, w)
    }

    method SkipXChars(n: nat)
      requires Valid()
      modifies this
      ensures Valid()
      ensures offset == if old(offset) + n <= |text| then old(offset) + n else |text|
    {
      offset := if offset + n <= |text| then offset + n else |text|;
    }

    /** Consumes and returns one ASCII digit; otherwise fails and consumes nothing. */
    method PopNextCharNumerical() returns (r: Result<char>)
      requires Valid()
      modifies this
      ensures Valid()
      ensures r.Ok? <==> old(offset) < |text| && IsDigit(text[old(offset)])
      ensures r.Ok? ==> r.value == text[old(offset)] && offset == old(offset) + 1
      ensures r.Err? ==> offset == old(offset) && r.error == NotNumerical(Peek(text, old(offset)))
    {
      if offset < |text| && IsDigit(text[offset]) {
        var c := text[offset];
        offset := offset + 1;
        return Ok(c);
      }
      return Err(NotNumerical(Peek(text, offset)));
    }

    /** Consumes every space and newline at the offset; never fails. */
    method SkipSpacesAndNewlines()
      requires Valid()
      modifies this
      ensures Valid() && offset == SkipSpaces(text, old(offset))
    {
      while offset < |text| && IsSpace(text[offset])
        invariant old(offset) <= offset <= |text|
        invariant SkipSpaces(text, old(offset)) == SkipSpaces(text, offset)
        decreases |text| - offset
      {
        offset := offset + 1;
      }
    }
  }
}
