/**
 * The string operations behind the two slug generators: lower-casing, the
 * character classes their regular expressions name, and the replacement
 * of every maximal run of a character class by a single hyphen (the effect of
 * `.replace(/X+/g, '-')`).
 */
module SlugText {
  import opened Lists

  predicate IsUpperAscii(c: char) { 'A' <= c <= 'Z' }

  /** The class `[a-z0-9]`. */
  predicate IsSlugAlnum(c: char) { 'a' <= c <= 'z' || '0' <= c <= '9' }

  /** The class `[^a-z0-9]`. */
  predicate NotSlugAlnum(c: char) { !IsSlugAlnum(c) }

  predicate IsHyphen(c: char) { c == '-' }

  predicate NotHyphen(c: char) { c != '-' }

  /** JavaScript's `\s`: the WhiteSpace and LineTerminator code points. */
  predicate IsSpace(c: char)
  {
    || c == '\t' || c == '\n' || c == '\U{B}' || c == '\U{C}' || c == '\r'
    || c == ' ' || c == '\U{A0}' || c == '\U{1680}' || '\U{2000}' <= c <= '\U{200A}'
    || c == '\U{2028}' || c == '\U{2029}' || c == '\U{202F}' || c == '\U{205F}'
    || c == '\U{3000}' || c == '\U{FEFF}'
  }

  /** KELVIN SIGN, whose lower-case form is the ASCII `k`. */
  const KelvinSign: char := '\U{212A}'

  /** LATIN CAPITAL LETTER I WITH DOT ABOVE, whose lower-case form is the
      ASCII `i` followed by COMBINING DOT ABOVE. */
  const DottedCapitalI: char := '\U{0130}'

  /** The lower-case form of one character. A-Z, the Kelvin sign and the dotted
      capital I are the only characters whose lower-case form holds an ASCII
      character; every other character is kept, standing for a lower-case form
      that lies outside ASCII as well. */
  function LowerOf(c: char): string
  {
    if IsUpperAscii(c) then [(c as int + 32) as char]
    else if c == KelvinSign then "k"
    else if c == DottedCapitalI then "i\U{0307}"
    else [c]
  }

  /** `toLowerCase`: each character replaced by its lower-case form. */
  function Lower(s: string): string
    decreases |s|
  {
    if s == [] then [] else LowerOf(s[0]) + Lower(s[1..])
  }

  /** A character that `toLowerCase` leaves as it is. */
  predicate LowerFixed(c: char)
  {
    !IsUpperAscii(c) && c != KelvinSign && c != DottedCapitalI
  }

  /** The ASCII letters and digits of `s`, in order. */
  function Alnums(s: string): string
  {
    Filter(s, IsSlugAlnum)
  }

  /** `s` with every hyphen deleted. */
  function DropHyphens(s: string): string
  {
    Filter(s, NotHyphen)
  }

  /** Every character of `s` is in `[a-z0-9-]`. */
  predicate SlugChars(s: string)
  {
    forall i :: 0 <= i < |s| ==> IsSlugAlnum(s[i]) || s[i] == '-'
  }

  /** No two hyphens stand next to each other. */
  predicate NoDoubleHyphen(s: string)
  {
    forall i :: 0 < i < |s| ==> !(s[i - 1] == '-' && s[i] == '-')
  }

  /** The leading run of `p`-characters of `s` removed. */
  function SkipRun(s: string, p: char -> bool): (r: string)
    ensures |r| <= |s|
    ensures r == [] || !p(r[0])
    decreases |s|
  {
    if s != [] && p(s[0]) then SkipRun(s[1..], p) else s
  }

  /** What is skipped is a prefix of `s` made only of class members. */
  lemma {:induction false} SkipRunSuffix(s: string, p: char -> bool)
    ensures SkipRun(s, p) == s[|s| - |SkipRun(s, p)|..]
    ensures forall i :: 0 <= i < |s| - |SkipRun(s, p)| ==> p(s[i])
    decreases |s|
  {
    if s != [] && p(s[0]) {
      SkipRunSuffix(s[1..], p);
      assert s[1..][|s| - 1 - |SkipRun(s, p)|..] == s[|s| - |SkipRun(s, p)|..];
    }
  }

  /** A string made only of class members is skipped entirely. */
  lemma {:induction false} SkipRunAll(s: string, p: char -> bool)
    requires forall i :: 0 <= i < |s| ==> p(s[i])
    ensures SkipRun(s, p) == []
    decreases |s|
  {
    if s != [] {
      SkipRunAll(s[1..], p);
    }
  }

  /** `s.replace(/P+/g, '-')`: every maximal run of characters satisfying `p`
      becomes one hyphen; every other character is kept. */
  function ReplaceRuns(s: string, p: char -> bool): string
    decreases |s|
  {
    if s == [] then []
    else if p(s[0]) then "-" + ReplaceRuns(SkipRun(s[1..], p), p)
    else [s[0]] + ReplaceRuns(s[1..], p)
  }

  /** Lower-casing works character by character. */
  lemma {:induction false} LowerAppend(a: string, b: string)
    ensures Lower(a + b) == Lower(a) + Lower(b)
    decreases |a|
  {
    if a == [] {
      assert a + b == b;
    } else {
      LowerAppend(a[1..], b);
      assert (a + b)[1..] == a[1..] + b;
    }
  }

  /** No upper-case ASCII letter is left, and the string never gets shorter;
      it keeps its length unless it holds a dotted capital I, the one
      character whose lower-case form is two characters long. */
  lemma {:induction false} LowerFacts(s: string)
    ensures forall i :: 0 <= i < |Lower(s)| ==> !IsUpperAscii(Lower(s)[i])
    ensures |Lower(s)| >= |s|
    ensures (forall i :: 0 <= i < |s| ==> s[i] != DottedCapitalI) ==> |Lower(s)| == |s|
    ensures DottedCapitalI in s ==> |Lower(s)| > |s|
    decreases |s|
  {
    if s != [] {
      LowerFacts(s[1..]);
      var h := LowerOf(s[0]);
      assert Lower(s) == h + Lower(s[1..]);
      forall i | 0 <= i < |Lower(s)| ensures !IsUpperAscii(Lower(s)[i]) {
        if i >= |h| {
          assert Lower(s)[i] == Lower(s[1..])[i - |h|];
        }
      }
      if DottedCapitalI in s && s[0] != DottedCapitalI {
        assert DottedCapitalI in s[1..];
      }
      if forall i :: 0 <= i < |s| ==> s[i] != DottedCapitalI {
        assert forall i :: 0 <= i < |s[1..]| ==> s[1..][i] == s[i + 1];
      }
    }
  }

  /** Lower-casing a string that `toLowerCase` leaves alone changes nothing. */
  lemma {:induction false} LowerIdentity(s: string)
    requires forall i :: 0 <= i < |s| ==> LowerFixed(s[i])
    ensures Lower(s) == s
    decreases |s|
  {
    if s != [] {
      LowerIdentity(s[1..]);
      assert s == [s[0]] + s[1..];
    }
  }

  /** What the replacement emits: hyphens, and characters of the input outside the class. */
  lemma {:induction false} ReplaceRunsChars(s: string, p: char -> bool)
    ensures forall i :: 0 <= i < |ReplaceRuns(s, p)| ==>
      ReplaceRuns(s, p)[i] == '-' || (!p(ReplaceRuns(s, p)[i]) && ReplaceRuns(s, p)[i] in s)
    decreases |s|
  {
    if s == [] {
    } else if p(s[0]) {
      var t := SkipRun(s[1..], p);
      ReplaceRunsChars(t, p);
      SkipRunSuffix(s[1..], p);
      assert forall c :: c in t ==> c in s;
    } else {
      ReplaceRunsChars(s[1..], p);
    }
  }

  /** The first character emitted. */
  lemma ReplaceRunsHead(s: string, p: char -> bool)
    requires s != []
    ensures ReplaceRuns(s, p) != []
    ensures ReplaceRuns(s, p)[0] == if p(s[0]) then '-' else s[0]
  {
  }

  /** When the class contains the hyphen, the result has no two adjacent hyphens. */
  lemma {:induction false} ReplaceRunsNoDoubleHyphen(s: string, p: char -> bool)
    requires p('-')
    ensures NoDoubleHyphen(ReplaceRuns(s, p))
    decreases |s|
  {
    if s == [] {
    } else if p(s[0]) {
      var t := SkipRun(s[1..], p);
      ReplaceRunsNoDoubleHyphen(t, p);
      if t != [] {
        ReplaceRunsHead(t, p);
      }
      assert ReplaceRuns(s, p) == "-" + ReplaceRuns(t, p);
    } else {
      ReplaceRunsNoDoubleHyphen(s[1..], p);
      assert ReplaceRuns(s, p) == [s[0]] + ReplaceRuns(s[1..], p);
    }
  }

  /** A string whose only class members are isolated hyphens is left as it is. */
  lemma {:induction false} ReplaceRunsFixpoint(s: string, p: char -> bool)
    requires NoDoubleHyphen(s)
    requires forall i :: 0 <= i < |s| ==> p(s[i]) ==> s[i] == '-'
    ensures ReplaceRuns(s, p) == s
    decreases |s|
  {
    if s == [] {
    } else {
      ReplaceRunsFixpoint(s[1..], p);
      if p(s[0]) {
        assert |s| > 1 ==> s[1] != '-' && !p(s[1]);
        assert SkipRun(s[1..], p) == s[1..];
        assert s == "-" + s[1..];
      } else {
        assert s == [s[0]] + s[1..];
      }
    }
  }

  /** Skipping a run of a class without letters or digits loses none of them. */
  lemma {:induction false} SkipRunAlnums(s: string, p: char -> bool)
    requires forall c :: p(c) ==> !IsSlugAlnum(c)
    ensures Alnums(SkipRun(s, p)) == Alnums(s)
    decreases |s|
  {
    if s != [] && p(s[0]) {
      SkipRunAlnums(s[1..], p);
    }
  }

  /** The replacement keeps every letter and digit, in order, when the class has none. */
  lemma {:induction false} ReplaceRunsAlnums(s: string, p: char -> bool)
    requires forall c :: p(c) ==> !IsSlugAlnum(c)
    ensures Alnums(ReplaceRuns(s, p)) == Alnums(s)
    decreases |s|
  {
    if s == [] {
    } else if p(s[0]) {
      var t := SkipRun(s[1..], p);
      ReplaceRunsAlnums(t, p);
      SkipRunAlnums(s[1..], p);
      FilterAppend("-", ReplaceRuns(t, p), IsSlugAlnum);
    } else {
      ReplaceRunsAlnums(s[1..], p);
      assert s == [s[0]] + s[1..];
      FilterAppend([s[0]], s[1..], IsSlugAlnum);
      FilterAppend([s[0]], ReplaceRuns(s[1..], p), IsSlugAlnum);
    }
  }

  /** For a string over `[a-z0-9-]`, deleting hyphens leaves exactly its letters and digits. */
  lemma {:induction false} DropHyphensOfSlugChars(s: string)
    requires SlugChars(s)
    ensures DropHyphens(s) == Alnums(s)
  {
    if s != [] {
      DropHyphensOfSlugChars(s[1..]);
    }
  }

  /** A string over `[a-z0-9-]` without letters or digits is all hyphens. */
  lemma AllHyphensWithoutAlnums(s: string)
    requires SlugChars(s) && Alnums(s) == []
    ensures forall i :: 0 <= i < |s| ==> s[i] == '-'
  {
    FilterMembers(s, IsSlugAlnum);
  }

  /** Slices of a string over `[a-z0-9-]` without double hyphens keep both properties. */
  lemma SliceKeepsShape(s: string, i: nat, j: nat)
    requires i <= j <= |s|
    ensures SlugChars(s) ==> SlugChars(s[i..j])
    ensures NoDoubleHyphen(s) ==> NoDoubleHyphen(s[i..j])
  {
    if NoDoubleHyphen(s) {
      forall k | 0 < k < j - i ensures !(s[i..j][k - 1] == '-' && s[i..j][k] == '-') {
        assert s[i..j][k - 1] == s[i + k - 1] && s[i..j][k] == s[i + k];
      }
    }
  }
}
