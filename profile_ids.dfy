/** Derivation of a profile's directory name from the speaker's name:
    lower-case it, turn every space into `_`, then keep only alphanumeric
    characters and `_`. Enrollment and deletion both use `ProfileId`.
    Character classes are those of ASCII. */
module ProfileIds {

  predicate IsUpper(c: char) { 'A' <= c <= 'Z' }

  predicate IsAlnum(c: char) {
    'a' <= c <= 'z' || IsUpper(c) || '0' <= c <= '9'
  }

  /** The characters a derived profile id may contain. */
  predicate IsIdChar(c: char) {
    'a' <= c <= 'z' || '0' <= c <= '9' || c == '_'
  }

  function LowerChar(c: char): (r: char)
    ensures !IsUpper(r)
    ensures IsAlnum(c) <==> IsAlnum(r)
  {
    if IsUpper(c) then (c as int + 32) as char else c
  }

  /** `str.lower()` */
  function Lower(s: string): (r: string)
    ensures |r| == |s|
    ensures forall i :: 0 <= i < |s| ==> r[i] == LowerChar(s[i])
  {
    if s == [] then [] else [LowerChar(s[0])] + Lower(s[1..])
  }

  /** `str.replace(' ', '_')` */
  function ReplaceSpaces(s: string): (r: string)
    ensures |r| == |s|
    ensures forall i :: 0 <= i < |s| ==> r[i] == if s[i] == ' ' then '_' else s[i]
  {
    if s == [] then [] else [if s[0] == ' ' then '_' else s[0]] + ReplaceSpaces(s[1..])
  }

  /** `''.join(c for c in s if c.isalnum() or c == '_')` */
  function KeepIdChars(s: string): (r: string)
    ensures |r| <= |s|
    ensures forall i :: 0 <= i < |r| ==> IsAlnum(r[i]) || r[i] == '_'
    ensures forall c :: c in r ==> c in s
  {
    if s == [] then []
    else if IsAlnum(s[0]) || s[0] == '_' then [s[0]] + KeepIdChars(s[1..])
    else KeepIdChars(s[1..])
  }

  /** Exactly the alphanumeric characters and `_` of the input survive:
      a character occurs in the result iff it occurs in the input and is
      one of those. */
  lemma {:induction false} KeepIdCharsExact(s: string)
    ensures forall c :: c in KeepIdChars(s) <==> c in s && (IsAlnum(c) || c == '_')
  {
    if s != [] {
      KeepIdCharsExact(s[1..]);
      assert forall c :: c in s <==> c == s[0] || c in s[1..] by {
        assert s == [s[0]] + s[1..];
      }
    }
  }

  /** The profile id of a speaker name. */
  function ProfileId(name: string): string {
    KeepIdChars(ReplaceSpaces(Lower(name)))
  }

  /** A derived id is made of lower-case letters, digits and `_` only;
      in particular it holds no space and no upper-case letter. */
  lemma ProfileIdChars(name: string)
    ensures forall i :: 0 <= i < |ProfileId(name)| ==> IsIdChar(ProfileId(name)[i])
    ensures ' ' !in ProfileId(name)
  {
    var t := ReplaceSpaces(Lower(name));
    forall c | c in t ensures !IsUpper(c) {
      var i :| 0 <= i < |t| && t[i] == c;
    }
    var r := KeepIdChars(t);
    forall i | 0 <= i < |r| ensures IsIdChar(r[i]) {
      assert r[i] in t;
    }
  }

  lemma {:induction false} LowerConcat(a: string, b: string)
    ensures Lower(a + b) == Lower(a) + Lower(b)
  {
  }

  lemma {:induction false} ReplaceSpacesConcat(a: string, b: string)
    ensures ReplaceSpaces(a + b) == ReplaceSpaces(a) + ReplaceSpaces(b)
  {
  }

  lemma {:induction false} KeepIdCharsConcat(a: string, b: string)
    ensures KeepIdChars(a + b) == KeepIdChars(a) + KeepIdChars(b)
  {
    if a == [] {
      assert a + b == b;
    } else {
      assert (a + b)[1..] == a[1..] + b;
      KeepIdCharsConcat(a[1..], b);
    }
  }

  /** Derivation works character by character: the id of a concatenation
      is the concatenation of the ids. */
  lemma ProfileIdConcat(a: string, b: string)
    ensures ProfileId(a + b) == ProfileId(a) + ProfileId(b)
  {
    LowerConcat(a, b);
    ReplaceSpacesConcat(Lower(a), Lower(b));
    KeepIdCharsConcat(ReplaceSpaces(Lower(a)), ReplaceSpaces(Lower(b)));
  }

  /** Every space becomes `_`: a space between two parts of a name turns
      into `_` between their ids. */
  lemma SpaceBecomesUnderscore(a: string, b: string)
    ensures ProfileId(a + " " + b) == ProfileId(a) + "_" + ProfileId(b)
  {
    ProfileIdConcat(a + " ", b);
    ProfileIdConcat(a, " ");
    assert ProfileId(" ") == "_";
  }

  /** A string of id characters is its own id. */
  lemma {:induction false} IdCharsFixed(s: string)
    requires forall i :: 0 <= i < |s| ==> IsIdChar(s[i])
    ensures ProfileId(s) == s
  {
    if s != [] {
      IdCharsFixed(s[1..]);
      assert s == [s[0]] + s[1..];
      ProfileIdConcat([s[0]], s[1..]);
    }
  }

  /** Deriving an id from an id changes nothing. */
  lemma ProfileIdIdempotent(name: string)
    ensures ProfileId(ProfileId(name)) == ProfileId(name)
  {
    ProfileIdChars(name);
    IdCharsFixed(ProfileId(name));
  }

  /** Names that differ only in letter case get the same id. */
  lemma {:induction false} ProfileIdIgnoresCase(name: string)
    ensures ProfileId(Lower(name)) == ProfileId(name)
  {
    if name != [] {
      ProfileIdIgnoresCase(name[1..]);
      assert name == [name[0]] + name[1..];
      LowerConcat([name[0]], name[1..]);
      ProfileIdConcat([name[0]], name[1..]);
      ProfileIdConcat(Lower([name[0]]), Lower(name[1..]));
    }
  }
}
