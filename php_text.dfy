/** PHP string helpers used by the tag resolver: trim() and empty(). */
module PhpText {

  /** The characters PHP's trim() strips when given no character list:
      space, tab, line feed, carriage return, NUL and vertical tab. */
  predicate IsTrimChar(c: char) {
    c == ' ' || c == '\t' || c == '\n' || c == '\r' || c == '\U{0}' || c == '\U{B}'
  }

  /** ltrim(): drops the leading trim characters. */
  function TrimLeft(s: string): string {
    if |s| > 0 && IsTrimChar(s[0]) then TrimLeft(s[1..]) else s
  }

  /** rtrim(): drops the trailing trim characters. */
  function TrimRight(s: string): string {
    if |s| > 0 && IsTrimChar(s[|s| - 1]) then TrimRight(s[..|s| - 1]) else s
  }

  /** trim(): both ends. */
  function Trim(s: string): string {
    TrimRight(TrimLeft(s))
  }

  /** PHP's empty() on a string: true for "" and for "0". */
  predicate IsEmptyString(s: string) {
    s == "" || s == "0"
  }

  /** The test `empty(trim($tagName))` that makes the resolver skip a name. */
  predicate IsBlank(name: string) {
    IsEmptyString(Trim(name))
  }

  /** TrimLeft(s) is a suffix of s that does not start with a trim
      character, and everything it drops is a trim character. */
  lemma {:induction false} TrimLeftShape(s: string)
    ensures var r := TrimLeft(s);
      && |r| <= |s| && r == s[|s| - |r|..]
      && (r == [] || !IsTrimChar(r[0]))
      && (forall i :: 0 <= i < |s| - |r| ==> IsTrimChar(s[i]))
    decreases |s|
  {
    if |s| > 0 && IsTrimChar(s[0]) {
      TrimLeftShape(s[1..]);
      var r := TrimLeft(s);
      forall i | 1 <= i < |s| - |r| ensures IsTrimChar(s[i]) {
        assert s[i] == s[1..][i - 1];
      }
    }
  }

  /** TrimRight(s) is a prefix of s that does not end with a trim
      character, and everything it drops is a trim character. */
  lemma {:induction false} TrimRightShape(s: string)
    ensures var r := TrimRight(s);
      && |r| <= |s| && r == s[..|r|]
      && (r == [] || !IsTrimChar(r[|r| - 1]))
      && (forall i :: |r| <= i < |s| ==> IsTrimChar(s[i]))
    decreases |s|
  {
    if |s| > 0 && IsTrimChar(s[|s| - 1]) {
      TrimRightShape(s[..|s| - 1]);
    }
  }

  /** Trim(s) is the infix of s between a run of trim characters on each
      side, and neither of its ends is a trim character. */
  lemma TrimShape(s: string)
    ensures exists i, j ::
              0 <= i <= j <= |s| && Trim(s) == s[i..j]
              && (forall k :: 0 <= k < i ==> IsTrimChar(s[k]))
              && (forall k :: j <= k < |s| ==> IsTrimChar(s[k]))
    ensures Trim(s) == [] || (!IsTrimChar(Trim(s)[0]) && !IsTrimChar(Trim(s)[|Trim(s)| - 1]))
  {
    var l := TrimLeft(s);
    TrimLeftShape(s);
    TrimRightShape(l);
    var i := |s| - |l|;
    var j := i + |Trim(s)|;
    assert Trim(s) == l[..|Trim(s)|] == s[i..j];
    forall k | j <= k < |s| ensures IsTrimChar(s[k]) {
      assert s[k] == l[k - i];
    }
  }

  /** Trimming twice is trimming once. */
  lemma TrimIdempotent(s: string)
    ensures Trim(Trim(s)) == Trim(s)
  {
    var t := Trim(s);
    TrimShape(s);
    assert TrimLeft(t) == t;
    assert TrimRight(t) == t;
  }

  /** A trimmed name that is not blank is neither "" nor "0", and trimming
      it again changes nothing: the name a created tag receives. */
  lemma TrimmedNameNotBlank(name: string)
    requires !IsBlank(name)
    ensures !IsBlank(Trim(name)) && Trim(Trim(name)) == Trim(name)
    ensures Trim(name) != "" && Trim(name) != "0"
  {
    TrimIdempotent(name);
  }
}
