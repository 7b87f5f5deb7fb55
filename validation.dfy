/**
  Input validation of the registration form.

  The two regular expressions of the server, `^\d[A-Z0-9]{3}$` for PDB ids and
  `^\d{9}$` for McGill ids, are anchored sequences of character classes with
  exact repetition counts. They are modelled as such a sequence (a `Pattern`)
  together with a matcher, and lemmas connect each of them to a direct
  description of the strings it accepts.

  Characters are restricted to ASCII: `\d` is the ASCII digits and upper-casing
  maps only `a`..`z`.
*/
module Validation {

  predicate IsDigit(c: char) { '0' <= c <= '9' }
  predicate IsUpper(c: char) { 'A' <= c <= 'Z' }
  predicate IsLower(c: char) { 'a' <= c <= 'z' }

  /** ASCII upper-casing of one character. */
  function UpperChar(c: char): (u: char)
    ensures IsLower(c) || IsUpper(c) ==> IsUpper(u)
    ensures IsLower(c) ==> u as int - 'A' as int == c as int - 'a' as int
    ensures !IsLower(u)
    ensures !IsLower(c) ==> u == c
    ensures IsDigit(u) <==> IsDigit(c)
  {
    if IsLower(c) then (c as int - 32) as char else c
  }

  /** `str::to_uppercase`, restricted to ASCII. */
  function ToUpper(s: string): string
  {
    seq(|s|, i requires 0 <= i < |s| => UpperChar(s[i]))
  }

  /** Upper-casing keeps the length and maps every character on its own. */
  lemma ToUpperAt(s: string, i: nat)
    requires i < |s|
    ensures |ToUpper(s)| == |s| && ToUpper(s)[i] == UpperChar(s[i])
  {
  }

  /** Upper-casing twice is upper-casing once: normalising a normalised id changes nothing. */
  lemma ToUpperIdempotent(s: string)
    ensures ToUpper(ToUpper(s)) == ToUpper(s)
  {
  }

  /** After upper-casing no lower-case letter is left. */
  lemma ToUpperHasNoLower(s: string)
    ensures forall i :: 0 <= i < |ToUpper(s)| ==> !IsLower(ToUpper(s)[i])
  {
  }

  // ---------------------------------------------------------------------------
  // Anchored patterns of character classes with exact repetition counts.

  /** The two character classes the server's expressions use: `\d` and `[A-Z0-9]`. */
  datatype CharClass = Digit | UpperOrDigit

  predicate InClass(c: char, k: CharClass)
  {
    match k
    case Digit => IsDigit(c)
    case UpperOrDigit => IsUpper(c) || IsDigit(c)
  }

  /** One atom `k{count}` of an expression. */
  datatype Piece = Piece(cls: CharClass, count: nat)

  /** A whole expression `^piece piece ... $`. */
  type Pattern = seq<Piece>

  /** `^\d[A-Z0-9]{3}$` */
  const PdbRe: Pattern := [Piece(Digit, 1), Piece(UpperOrDigit, 3)]

  /** `^\d{9}$` */
  const McgIdRe: Pattern := [Piece(Digit, 9)]

  /** `Regex::is_match` for an anchored pattern: the pieces consume the whole string in order. */
  predicate IsMatch(p: Pattern, s: string)
    decreases |p|
  {
    if p == [] then s == []
    else
      var n := p[0].count;
      && n <= |s|
      && (forall i :: 0 <= i < n ==> InClass(s[i], p[0].cls))
      && IsMatch(p[1..], s[n..])
  }

  /** The number of characters a pattern matches. */
  function Width(p: Pattern): nat
  {
    if p == [] then 0 else p[0].count + Width(p[1..])
  }

  /** The class a match must have at position `i`. */
  function ClassAt(p: Pattern, i: nat): CharClass
    requires i < Width(p)
    decreases |p|
  {
    if i < p[0].count then p[0].cls else ClassAt(p[1..], i - p[0].count)
  }

  /**
    A string matches a pattern exactly when it has the pattern's width and each
    of its characters is in the class the pattern puts at that position.
  */
  lemma {:induction false} MatchIffPositionwise(p: Pattern, s: string)
    ensures IsMatch(p, s) <==>
              |s| == Width(p) && forall i :: 0 <= i < |s| ==> InClass(s[i], ClassAt(p, i))
    decreases |p|
  {
    if p != [] {
      var n := p[0].count;
      if n <= |s| {
        var rest := s[n..];
        MatchIffPositionwise(p[1..], rest);
        forall j | 0 <= j < |rest| && |s| == Width(p)
          ensures ClassAt(p, j + n) == ClassAt(p[1..], j) && rest[j] == s[j + n]
        {
        }
        if |s| == Width(p) && forall i :: 0 <= i < |s| ==> InClass(s[i], ClassAt(p, i)) {
          forall i | 0 <= i < n ensures InClass(s[i], p[0].cls) {
            assert ClassAt(p, i) == p[0].cls;
          }
          forall j | 0 <= j < |rest| ensures InClass(rest[j], ClassAt(p[1..], j)) {
            assert InClass(s[j + n], ClassAt(p, j + n));
          }
        }
        if IsMatch(p, s) {
          forall i | 0 <= i < |s| ensures InClass(s[i], ClassAt(p, i)) {
            if i >= n {
              assert InClass(rest[i - n], ClassAt(p[1..], i - n));
            }
          }
        }
      }
    }
  }

  // ---------------------------------------------------------------------------
  // The three field checks of the registration form.

  /** `reg.name.is_empty()` fails the name; no trimming happens. */
  predicate IsValidName(name: string) { name != [] }

  /** `PDB_RE.is_match(pdb)`. */
  predicate IsValidPdb(pdb: string) { IsMatch(PdbRe, pdb) }

  /** `MCG_ID_RE.is_match(id)`. */
  predicate IsValidMcgillId(id: string) { IsMatch(McgIdRe, id) }

  /** A PDB id is valid exactly when it is four characters: a digit, then three digits or capitals. */
  lemma PdbIdShape(pdb: string)
    ensures IsValidPdb(pdb) <==>
              && |pdb| == 4
              && IsDigit(pdb[0])
              && forall i :: 1 <= i < 4 ==> IsUpper(pdb[i]) || IsDigit(pdb[i])
  {
  }

  /** A McGill id is valid exactly when it is nine digits. */
  lemma McgillIdShape(id: string)
    ensures IsValidMcgillId(id) <==> |id| == 9 && forall i :: 0 <= i < |id| ==> IsDigit(id[i])
  {
  }

  /**
    What the form accepts as a PDB id, in terms of what the user typed: after
    upper-casing, four characters, a digit first and then three ASCII letters
    of either case or digits.
  */
  lemma NormalizedPdbIdShape(typed: string)
    ensures IsValidPdb(ToUpper(typed)) <==>
              && |typed| == 4
              && IsDigit(typed[0])
              && forall i :: 1 <= i < 4 ==> IsUpper(typed[i]) || IsLower(typed[i]) || IsDigit(typed[i])
  {
    var u := ToUpper(typed);
    PdbIdShape(u);
    if |typed| == 4 {
      forall i | 0 <= i < 4
        ensures (IsUpper(u[i]) || IsDigit(u[i])) <==> (IsUpper(typed[i]) || IsLower(typed[i]) || IsDigit(typed[i]))
        ensures IsDigit(u[i]) <==> IsDigit(typed[i])
      {
        ToUpperAt(typed, i);
      }
    }
  }

  /** The examples of accepted and rejected ids given for the form. */
  lemma ValidationExamples()
    ensures ToUpper("2aro") == "2ARO" && IsValidPdb("2ARO")
    ensures !IsValidPdb("22ARO") && !IsValidPdb("2AR")
    ensures IsValidMcgillId("123456789")
    ensures !IsValidMcgillId("12345678") && !IsValidMcgillId("1234567890") && !IsValidMcgillId("12345678A")
  {
    PdbIdShape("2ARO");
    PdbIdShape("22ARO");
    PdbIdShape("2AR");
    McgillIdShape("123456789");
    McgillIdShape("12345678");
    McgillIdShape("1234567890");
    McgillIdShape("12345678A");
    assert !IsDigit("12345678A"[8]);
  }
}
