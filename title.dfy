/** Python's `str.title()` restricted to ASCII: a letter that starts the
    string or follows a character that is not a letter is upper-cased, every
    other letter is lower-cased, and every other character is left alone.
    Digits and punctuation are not letters, so "they're" becomes "They'Re"
    and "1st" becomes "1St". */
module TitleCase {

  predicate IsUpper(c: char) { 'A' <= c <= 'Z' }

  predicate IsLower(c: char) { 'a' <= c <= 'z' }

  /** A cased character in the ASCII range. */
  predicate IsLetter(c: char) { IsUpper(c) || IsLower(c) }

  function ToUpper(c: char): (r: char)
    ensures IsLetter(c) ==> IsUpper(r) && ToLower(r) == ToLower(c)
    ensures !IsLower(c) ==> r == c
  {
    if IsLower(c) then (c as int - 32) as char else c
  }

  function ToLower(c: char): (r: char)
    ensures IsLetter(c) ==> IsLower(r)
    ensures !IsUpper(c) ==> r == c
  {
    if IsUpper(c) then (c as int + 32) as char else c
  }

  /** The character `c` once title-casing has decided whether the character
      before it was cased. */
  function Cased(c: char, afterLetter: bool): char
  {
    if !IsLetter(c) then c else if afterLetter then ToLower(c) else ToUpper(c)
  }

  /** Title-cases `s`, where `afterLetter` says whether the character before
      `s` was a letter. */
  function TitleFrom(s: string, afterLetter: bool): string
  {
    if s == [] then []
    else [Cased(s[0], afterLetter)] + TitleFrom(s[1..], IsLetter(s[0]))
  }

  function Title(s: string): string
  {
    TitleFrom(s, false)
  }

  /** What title-casing does at position `i` when it starts after a letter
      or not: the decision looks at the character just before. */
  lemma {:induction false} TitleFromAt(s: string, afterLetter: bool, i: nat)
    requires i < |s|
    ensures |TitleFrom(s, afterLetter)| == |s|
    ensures TitleFrom(s, afterLetter)[i] ==
            Cased(s[i], if i == 0 then afterLetter else IsLetter(s[i - 1]))
  {
    if i == 0 {
      if |s| > 1 {
        TitleFromAt(s[1..], IsLetter(s[0]), 0);
      } else {
        assert s[1..] == [];
      }
    } else {
      TitleFromAt(s[1..], IsLetter(s[0]), i - 1);
      assert s[1..][i - 1] == s[i];
      if i > 1 {
        assert s[1..][i - 2] == s[i - 1];
      }
    }
  }

  /** Title-casing keeps the length of the string. */
  lemma {:induction false} TitleLength(s: string)
    ensures |Title(s)| == |s|
  {
    if |s| > 0 {
      TitleFromAt(s, false, 0);
    }
  }

  /** The pointwise rule, stated without recursion: position `i` of the
      result is `s[i]` upper-cased if it is a letter at the start or after a
      non-letter, lower-cased if it is a letter after a letter, and unchanged
      if it is not a letter. */
  function TitleCharAt(s: string, i: nat): char
    requires i < |s|
  {
    if !IsLetter(s[i]) then s[i]
    else if i > 0 && IsLetter(s[i - 1]) then ToLower(s[i])
    else ToUpper(s[i])
  }

  /** The recursive definition agrees with the pointwise rule. */
  lemma TitleAt(s: string, i: nat)
    requires i < |s|
    ensures |Title(s)| == |s|
    ensures Title(s)[i] == TitleCharAt(s, i)
  {
    TitleFromAt(s, false, i);
  }

  /** Title-casing changes the case of letters and nothing else: a position
      holds a letter after title-casing exactly when it held one before, and
      the two agree up to case. */
  lemma TitleKeepsLetters(s: string, i: nat)
    requires i < |s|
    ensures |Title(s)| == |s|
    ensures IsLetter(Title(s)[i]) <==> IsLetter(s[i])
    ensures IsLetter(s[i]) ==> ToLower(Title(s)[i]) == ToLower(s[i])
    ensures !IsLetter(s[i]) ==> Title(s)[i] == s[i]
  {
    TitleAt(s, i);
  }

  /** Title-casing a string that is already title-cased changes nothing. */
  lemma TitleIdempotent(s: string)
    ensures Title(Title(s)) == Title(s)
  {
    var t := Title(s);
    TitleLength(s);
    TitleLength(t);
    forall i | 0 <= i < |t|
      ensures Title(t)[i] == t[i]
    {
      TitleAt(t, i);
      TitleAt(s, i);
      if i > 0 {
        TitleKeepsLetters(s, i - 1);
      }
    }
  }

  /** `Title(s) == t` follows from the pointwise rule applied at every
      position. */
  lemma TitleMatches(s: string, t: string)
    requires |t| == |s|
    requires forall i :: 0 <= i < |s| ==> t[i] == TitleCharAt(s, i)
    ensures Title(s) == t
  {
    TitleLength(s);
    forall i | 0 <= i < |s|
      ensures Title(s)[i] == t[i]
    {
      TitleAt(s, i);
    }
  }

  /** The example given for the client's success record. */
  lemma TitleLightRain()
    ensures Title("light rain") == "Light Rain"
  {
    TitleMatches("light rain", "Light Rain");
  }

  lemma TitleClearSky()
    ensures Title("clear sky") == "Clear Sky"
  {
  }

  /** An apostrophe is not a letter, so the letter after it is upper-cased. */
  lemma TitleApostrophe()
    ensures Title("they're") == "They'Re"
  {
    TitleMatches("they're", "They'Re");
  }
}
