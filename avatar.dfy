/** The avatar's initials and its background colour, derived from the user's name. */
module Avatar {
  import opened Seqs
  import opened Text
  import opened Js

  // ---------------------------------------------------------------- initials

  /** `part[0]` joined by `join("")`: an empty part yields `undefined`, which `join` writes
      as nothing. */
  function FirstChars(parts: seq<string>): (r: string)
    ensures |r| <= |parts|
  {
    if parts == [] then ""
    else (if parts[0] == "" then "" else [parts[0][0]]) + FirstChars(parts[1..])
  }

  /** `getInitials(name)`. */
  function Initials(name: string): (r: string)
    ensures |r| <= |Split(name, ' ')|
  {
    ToUpper(FirstChars(Split(name, ' ')))
  }

  predicate NonEmpty(s: string) {
    s != ""
  }

  function IsNonEmpty(): string -> bool {
    s => NonEmpty(s)
  }

  /** The first characters of parts that are all non-empty. */
  function Heads(parts: seq<string>): (r: string)
    requires forall i | 0 <= i < |parts| :: parts[i] != ""
    ensures |r| == |parts| && forall i | 0 <= i < |parts| :: r[i] == parts[i][0]
  {
    seq(|parts|, i requires 0 <= i < |parts| => parts[i][0])
  }

  lemma {:induction false} FilterNonEmpty(parts: seq<string>)
    ensures forall i | 0 <= i < |Filter(parts, IsNonEmpty())| :: Filter(parts, IsNonEmpty())[i] != ""
  {
    forall i | 0 <= i < |Filter(parts, IsNonEmpty())| ensures Filter(parts, IsNonEmpty())[i] != "" {
      FilterMembership(parts, IsNonEmpty(), Filter(parts, IsNonEmpty())[i]);
    }
  }

  /** One character per non-empty part, in order: the first character of each. */
  lemma {:induction false} FirstCharsAreHeads(parts: seq<string>)
    ensures FilterNonEmptyHolds(parts) && FirstChars(parts) == Heads(Filter(parts, IsNonEmpty()))
  {
    FilterNonEmpty(parts);
    if parts != [] {
      FirstCharsAreHeads(parts[1..]);
      FilterNonEmpty(parts[1..]);
      var rest := Filter(parts[1..], IsNonEmpty());
      if parts[0] != "" {
        assert Filter(parts, IsNonEmpty()) == [parts[0]] + rest;
        assert Heads([parts[0]] + rest) == [parts[0][0]] + Heads(rest);
      } else {
        assert Filter(parts, IsNonEmpty()) == rest;
      }
    }
  }

  predicate FilterNonEmptyHolds(parts: seq<string>) {
    forall i | 0 <= i < |Filter(parts, IsNonEmpty())| :: Filter(parts, IsNonEmpty())[i] != ""
  }

  /** The initials are the upper-cased first characters of the name's non-empty
      space-separated words: runs of spaces add nothing, and there are never more initials
      than parts. */
  lemma InitialsOfWords(name: string)
    ensures FilterNonEmptyHolds(Split(name, ' '))
    ensures Initials(name) == ToUpper(Heads(Filter(Split(name, ' '), IsNonEmpty())))
    ensures |Initials(name)| <= |Split(name, ' ')|
  {
    FirstCharsAreHeads(Split(name, ' '));
  }

  /** The result is already in upper case. */
  lemma InitialsUpper(name: string)
    ensures ToUpper(Initials(name)) == Initials(name)
  {
  }

  lemma EmptyNameNoInitials()
    ensures Initials("") == ""
    ensures Initials("  ") == ""
  {
    assert Split("", ' ') == [""];
    assert "  "[..0] == "" && " "[..0] == "";
    assert "  "[1..] == " " && " "[1..] == "";
    assert Split("  ", ' ') == ["", "", ""];
  }

  // ---------------------------------------------------------------- colour

  /** The UTF-16 code units of a string, the units `charCodeAt` reads. */
  function Utf16(s: string): (r: seq<int>)
    ensures |r| >= |s|
    ensures forall i | 0 <= i < |r| :: 0 <= r[i] < 0x1_0000
  {
    if s == [] then []
    else
      var c := s[0] as int;
      var units := if c < 0x1_0000 then [c] else [0xD800 + (c - 0x1_0000) / 0x400, 0xDC00 + (c - 0x1_0000) % 0x400];
      units + Utf16(s[1..])
  }

  /** The value of `hash` after the loop has read `units`: each step computes
      `unit + ((hash << 5) - hash)`, where `<<` works on the 32-bit form of `hash` but the
      subtraction and addition do not. */
  function Hash(units: seq<int>): int
    decreases |units|
  {
    if units == [] then 0
    else
      var h := Hash(units[..|units| - 1]);
      units[|units| - 1] + (ShiftLeft5(h) - h)
  }

  const StepBound: int := TwoTo31 + 0x1_0000

  /** `hash` grows by less than 2^31 + 2^16 per unit, so it stays below 2^53, where numbers
      are exact, for every name shorter than 2^21 units: integer arithmetic models it. */
  lemma {:induction false} HashBounded(units: seq<int>)
    requires forall i | 0 <= i < |units| :: 0 <= units[i] < 0x1_0000
    ensures -|units| * StepBound <= Hash(units) <= |units| * StepBound
    decreases |units|
  {
    if units != [] {
      var init := units[..|units| - 1];
      HashBounded(init);
      var h := Hash(init);
      var s := ShiftLeft5(h);
      assert -TwoTo31 <= s < TwoTo31;
      assert Hash(units) == units[|units| - 1] + s - h;
      assert |units| * StepBound == |init| * StepBound + StepBound;
    }
  }

  /** The hue: `hash % 360`, a truncating remainder. */
  function Hue(hash: int): (r: int)
    ensures -360 < r < 360
    ensures hash >= 0 ==> r >= 0
    ensures hash <= 0 ==> r <= 0
  {
    TruncRem(hash, 360)
  }

  function Hsl(hue: int): string {
    "hsl(" + IntToString(hue) + ", 65%, 85%)"
  }

  /** `stringToColor(str)`: hash the code units one by one, then format the hue. */
  method StringToColor(str: string) returns (color: string)
    ensures color == Hsl(Hue(Hash(Utf16(str))))
  {
    var units := Utf16(str);
    var hash := 0;
    var i := 0;
    while i < |units|
      invariant 0 <= i <= |units|
      invariant hash == Hash(units[..i])
    {
      assert units[..i + 1][..i] == units[..i];
      hash := units[i] + (ShiftLeft5(hash) - hash);
      i := i + 1;
    }
    assert units[..i] == units;
    var hue := Hue(hash);
    color := Hsl(hue);
  }

  /** The empty name hashes to 0. */
  lemma EmptyNameColor()
    ensures Hsl(Hue(Hash(Utf16("")))) == "hsl(0, 65%, 85%)"
  {
    assert NatToString(0) == "0";
  }

  /** A one-unit name hashes to its own code, since `(0 << 5) - 0` is 0. */
  lemma SingleUnitHash(c: int)
    requires 0 <= c < 0x1_0000
    ensures Hash([c]) == c && Hue(Hash([c])) == c % 360
  {
    assert [c][..0] == [];
  }
}
