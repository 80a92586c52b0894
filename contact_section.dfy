/** The phone-number field of the contact form: the `onInput` handler that
    reformats the field's text on every keystroke, and the field's `pattern`
    and `maxLength` attributes as predicates on strings. */
module ContactSection {
  import opened Text

  /** A Norwegian national number has eight digits. */
  const MaxDigits: nat := 8
  /** The field's `maxLength` attribute. */
  const MaxLength: nat := 11
  /** The bounds of the field's `pattern` attribute `[0-9 ]{9,11}`. */
  const PatternMin: nat := 9
  const PatternMax: nat := 11
  /** The field's `placeholder` attribute. */
  const Placeholder: string := "912 34 567"

  predicate IsDigitOrSpace(c: char) {
    IsDigit(c) || c == ' '
  }

  /** `value.replace(/\D/g, '')`: every non-digit character removed. */
  function StripNonDigits(s: string): (r: string)
    ensures |r| <= |s|
    ensures forall i :: 0 <= i < |r| ==> IsDigit(r[i])
  {
    if s == [] then []
    else (if IsDigit(s[0]) then [s[0]] else []) + StripNonDigits(s[1..])
  }

  /** `if (value.length > 8) value = value.slice(0, 8)`. */
  function Truncate(v: string): (r: string)
    ensures |r| == Min(MaxDigits, |v|) && r == v[..|r|]
  {
    if |v| > MaxDigits then v[..MaxDigits] else v
  }

  /** The spacing step: a space after the 3rd digit once there are more than
      three, and another after the 6th once there are more than six. */
  function Group(v: string): (r: string)
    ensures |r| == |v| + SpaceCount(|v|)
    ensures forall i :: 0 <= i < |r| ==>
      r[i] == if |v| > 3 && i == 3 then ' '
              else if |v| > 6 && i == 7 then ' '
              else if i < 3 then v[i]
              else if i < 7 || |v| <= 6 then v[i - 1]
              else v[i - 2]
  {
    if |v| > 6 then v[..3] + " " + v[3..6] + " " + v[6..]
    else if |v| > 3 then v[..3] + " " + v[3..]
    else v
  }

  /** The digits the handler keeps: the first eight digits of the input. */
  function KeptDigits(s: string): (r: string)
    ensures r == StripNonDigits(s)[..Min(MaxDigits, |StripNonDigits(s)|)]
    ensures |r| <= MaxDigits && forall i :: 0 <= i < |r| ==> IsDigit(r[i])
  {
    Truncate(StripNonDigits(s))
  }

  /** The text the handler writes back into the field. */
  function Format(s: string): (r: string)
    ensures forall i :: 0 <= i < |r| ==> IsDigitOrSpace(r[i])
    ensures |r| <= 10 < MaxLength
  {
    var v := KeptDigits(s);
    assert forall i :: 0 <= i < |v| ==> IsDigit(v[i]);
    Group(v)
  }

  /** An anchored match of the bounded repetition `[0-9 ]{lo,hi}`, one
      character at a time: each step consumes one character of the class
      and counts down both bounds. */
  predicate MatchRepeat(s: string, lo: nat, hi: nat): (b: bool)
    ensures b <==> lo <= |s| <= hi && forall i :: 0 <= i < |s| ==> IsDigitOrSpace(s[i])
    decreases |s|
  {
    if s == [] then lo == 0
    else hi > 0 && IsDigitOrSpace(s[0]) && MatchRepeat(s[1..], if lo > 0 then lo - 1 else 0, hi - 1)
  }

  /** The browser's anchored match of `pattern="[0-9 ]{9,11}"`: the whole
      value must match. */
  predicate MatchesPattern(s: string): (b: bool)
    ensures b <==> PatternMin <= |s| <= PatternMax && forall i :: 0 <= i < |s| ==> IsDigitOrSpace(s[i])
  {
    MatchRepeat(s, PatternMin, PatternMax)
  }

  /** The text with every space removed. */
  function RemoveSpaces(s: string): string {
    if s == [] then [] else (if s[0] == ' ' then [] else [s[0]]) + RemoveSpaces(s[1..])
  }

  function Min(a: nat, b: nat): nat {
    if a <= b then a else b
  }

  /** The number of spaces the handler inserts for `d` kept digits. */
  function SpaceCount(d: nat): nat {
    if d <= 3 then 0 else if d <= 6 then 1 else 2
  }

  // ---------------------------------------------------------------------
  // Removing non-digits

  /** Stripping works piecewise: the digits of a concatenation are the
      digits of the first part followed by those of the second. */
  lemma {:induction false} StripConcat(a: string, b: string)
    ensures StripNonDigits(a + b) == StripNonDigits(a) + StripNonDigits(b)
    decreases |a|
  {
    if a == [] {
      assert a + b == b;
    } else {
      assert (a + b)[0] == a[0];
      assert (a + b)[1..] == a[1..] + b;
      StripConcat(a[1..], b);
    }
  }

  /** A single character survives exactly when it is a digit. */
  lemma StripSingle(c: char)
    ensures StripNonDigits([c]) == (if IsDigit(c) then [c] else [])
  {
    assert [c][1..] == [];
  }

  /** A string of digits only is left as it is. */
  lemma {:induction false} StripOfDigits(s: string)
    requires forall i :: 0 <= i < |s| ==> IsDigit(s[i])
    ensures StripNonDigits(s) == s
    decreases |s|
  {
    if s != [] {
      StripOfDigits(s[1..]);
    }
  }

  /** Spaces are non-digits, so stripping a string of digits and spaces is
      the same as removing its spaces. */
  lemma {:induction false} StripIsRemoveSpaces(s: string)
    requires forall i :: 0 <= i < |s| ==> IsDigitOrSpace(s[i])
    ensures StripNonDigits(s) == RemoveSpaces(s)
    decreases |s|
  {
    if s != [] {
      StripIsRemoveSpaces(s[1..]);
    }
  }

  /** Inserting a non-digit character anywhere in the input leaves the
      formatted value unchanged (and so does removing one). */
  lemma NonDigitIgnored(a: string, c: char, b: string)
    requires !IsDigit(c)
    ensures Format(a + [c] + b) == Format(a + b)
  {
    StripConcat(a + [c], b);
    StripConcat(a, [c]);
    StripSingle(c);
    StripConcat(a, b);
    assert StripNonDigits(a + [c]) == StripNonDigits(a);
    assert StripNonDigits(a + [c] + b) == StripNonDigits(a + b);
  }

  // ---------------------------------------------------------------------
  // Digits and spaces of the output

  lemma {:induction false} RemoveSpacesConcat(a: string, b: string)
    ensures RemoveSpaces(a + b) == RemoveSpaces(a) + RemoveSpaces(b)
    decreases |a|
  {
    if a == [] {
      assert a + b == b;
    } else {
      assert (a + b)[0] == a[0];
      assert (a + b)[1..] == a[1..] + b;
      RemoveSpacesConcat(a[1..], b);
    }
  }

  lemma {:induction false} RemoveSpacesOfDigits(s: string)
    requires forall i :: 0 <= i < |s| ==> IsDigit(s[i])
    ensures RemoveSpaces(s) == s
    decreases |s|
  {
    if s != [] {
      RemoveSpacesOfDigits(s[1..]);
    }
  }

  /** Removing the space after a group of digits leaves the digits. */
  lemma RemoveSpacesAfterGroup(prefix: string, a: string)
    requires forall i :: 0 <= i < |a| ==> IsDigit(a[i])
    ensures RemoveSpaces(prefix + a + [' ']) == RemoveSpaces(prefix) + a
  {
    RemoveSpacesConcat(prefix + a, [' ']);
    RemoveSpacesConcat(prefix, a);
    RemoveSpacesOfDigits(a);
    assert RemoveSpaces([' ']) == [];
  }

  /** The spacing step only inserts spaces: removing them again gives back
      the digits it was given. */
  lemma GroupRemoveSpaces(v: string)
    requires forall i :: 0 <= i < |v| ==> IsDigit(v[i])
    ensures RemoveSpaces(Group(v)) == v
  {
    var sp := [' '];
    if |v| > 6 {
      var a, b, c := v[..3], v[3..6], v[6..];
      assert Group(v) == a + sp + b + sp + c;
      assert a + sp == [] + a + sp;
      RemoveSpacesAfterGroup([], a);
      RemoveSpacesAfterGroup(a + sp, b);
      RemoveSpacesConcat(a + sp + b + sp, c);
      RemoveSpacesOfDigits(c);
      assert a + b + c == v;
    } else if |v| > 3 {
      var a, b := v[..3], v[3..];
      assert Group(v) == a + sp + b;
      assert a + sp == [] + a + sp;
      RemoveSpacesAfterGroup([], a);
      RemoveSpacesConcat(a + sp, b);
      RemoveSpacesOfDigits(b);
      assert a + b == v;
    } else {
      RemoveSpacesOfDigits(v);
    }
  }

  /** Removing the spaces from the formatted value gives exactly the first
      min(8, k) digits of the input in their original order, where k is the
      number of digits the input holds. */
  lemma FormatKeepsLeadingDigits(s: string)
    ensures RemoveSpaces(Format(s)) == StripNonDigits(s)[..Min(MaxDigits, |StripNonDigits(s)|)]
    ensures StripNonDigits(Format(s)) == KeptDigits(s)
  {
    var k := StripNonDigits(s);
    assert k[..|k|] == k;
    GroupRemoveSpaces(KeptDigits(s));
    StripIsRemoveSpaces(Format(s));
  }

  /** Where the spaces are, for d kept digits: none for d <= 3, one at index
      3 for 4 <= d <= 6, two at indices 3 and 7 for d >= 7; every other
      character is a kept digit. The length is d plus the spaces. */
  lemma SpaceLayout(s: string)
    ensures var d := |KeptDigits(s)|; var r := Format(s);
      d <= MaxDigits &&
      |r| == d + SpaceCount(d) &&
      (forall i :: 0 <= i < |r| ==> (r[i] == ' ' <==> (d >= 4 && i == 3) || (d >= 7 && i == 7))) &&
      (d <= 3 ==> r == KeptDigits(s))
  {
    var v := KeptDigits(s);
    var r := Format(s);
    assert forall i :: 0 <= i < |v| ==> IsDigit(v[i]);
    if |v| > 6 {
      assert forall i :: 0 <= i < |r| ==>
        r[i] == if i < 3 then v[i] else if i == 3 then ' ' else if i < 7 then v[i - 1]
                else if i == 7 then ' ' else v[i - 2];
    } else if |v| > 3 {
      assert forall i :: 0 <= i < |r| ==>
        r[i] == if i < 3 then v[i] else if i == 3 then ' ' else v[i - 1];
    }
  }

  /** Formatting is idempotent: the handler run on its own output changes
      nothing, which matters because it runs on every keystroke. */
  lemma FormatIdempotent(s: string)
    ensures Format(Format(s)) == Format(s)
  {
    FormatKeepsLeadingDigits(s);
  }

  /** Typing at the end of the formatted value and reformatting gives the
      same value as formatting everything typed so far. */
  lemma FormatAppend(a: string, b: string)
    ensures Format(Format(a) + b) == Format(a + b)
  {
    FormatKeepsLeadingDigits(a);
    StripConcat(Format(a), b);
    StripConcat(a, b);
    var u, x := StripNonDigits(a), StripNonDigits(b);
    if |u| > MaxDigits {
      assert (Truncate(u) + x)[..MaxDigits] == Truncate(u);
      assert (u + x)[..MaxDigits] == u[..MaxDigits];
    }
  }

  /** The formatted value satisfies the field's pattern exactly when it
      holds seven or eight digits, that is when the input holds at least
      seven. */
  lemma PatternIffSevenDigits(s: string)
    ensures MatchesPattern(Format(s)) <==> 7 <= |KeptDigits(s)|
    ensures MatchesPattern(Format(s)) <==> 7 <= |StripNonDigits(s)|
  {
    SpaceLayout(s);
  }

  /** Digit groups separated by single spaces strip to the groups joined. */
  lemma StripSpacedGroups(a: string, b: string, c: string)
    requires forall i :: 0 <= i < |a| ==> IsDigit(a[i])
    requires forall i :: 0 <= i < |b| ==> IsDigit(b[i])
    requires forall i :: 0 <= i < |c| ==> IsDigit(c[i])
    ensures StripNonDigits(a + [' '] + b + [' '] + c) == a + b + c
  {
    var sp := [' '];
    StripSingle(' ');
    StripOfDigits(a);
    StripOfDigits(b);
    StripOfDigits(c);
    var x1 := a + sp;
    StripConcat(a, sp);
    assert StripNonDigits(x1) == a;
    var x2 := x1 + b;
    StripConcat(x1, b);
    assert StripNonDigits(x2) == a + b;
    var x3 := x2 + sp;
    StripConcat(x2, sp);
    assert StripNonDigits(x3) == a + b;
    StripConcat(x3, c);
  }

  /** The layout of the placeholder: ten characters, `ddd dd ddd`. */
  predicate PlaceholderLayout(x: string) {
    |x| == 10 && x[3] == ' ' && x[6] == ' ' &&
    forall i :: 0 <= i < 10 && i != 3 && i != 6 ==> IsDigit(x[i])
  }

  lemma PlaceholderHasLayout()
    ensures PlaceholderLayout(Placeholder)
  {
  }

  /** A value laid out as `ddd dd ddd`, like the placeholder, satisfies the
      pattern, but the handler moves its second space one place right: the
      value is never what the handler writes back. For the placeholder
      "912 34 567" the handler writes "912 345 67". */
  lemma PlaceholderLayoutReformatted(x: string)
    requires PlaceholderLayout(x)
    ensures MatchesPattern(x)
    ensures Format(x) == x[..3] + " " + x[4..6] + [x[7]] + " " + x[8..]
    ensures Format(x) != x
  {
    var a, b, c := x[..3], x[4..6], x[7..];
    assert x == a + [' '] + b + [' '] + c;
    StripSpacedGroups(a, b, c);
    var v := a + b + c;
    assert KeptDigits(x) == v;
    assert v[..3] == a && v[3..6] == b + [x[7]] && v[6..] == x[8..];
    assert Format(x)[6] == x[7];
  }

  // ---------------------------------------------------------------------
  // The field

  /** The phone `<input>`; `value` is its text. */
  class PhoneInput {
    var value: string

    constructor (initial: string)
      ensures value == initial
    {
      value := initial;
    }

    /** The `onInput` handler: strip non-digits, keep at most eight, insert
        the spaces, write the result back. Only the value changes. */
    method OnInput()
      modifies this`value
      ensures value == Format(old(value))
      ensures |value| <= MaxLength
      ensures RemoveSpaces(value) == StripNonDigits(old(value))[..Min(MaxDigits, |StripNonDigits(old(value))|)]
      ensures MatchesPattern(value) <==> 7 <= |StripNonDigits(old(value))|
      ensures Format(value) == value
    {
      var v := StripNonDigits(value);
      if |v| > MaxDigits {
        v := v[..MaxDigits];
      }
      if |v| > 6 {
        v := v[..3] + " " + v[3..6] + " " + v[6..];
      } else if |v| > 3 {
        v := v[..3] + " " + v[3..];
      }
      FormatKeepsLeadingDigits(value);
      PatternIffSevenDigits(value);
      FormatIdempotent(value);
      value := v;
    }
  }
}
