/** String primitives with JavaScript's meaning, shared by the routes and the
    model validators: the whitespace `trim` removes, `trim` itself, the
    Sequelize `notEmpty` validator, and ASCII lower-casing. */
module Text {
  /** The characters String.prototype.trim removes: WhiteSpace (tab, VT, FF,
      space, NBSP, ZWNBSP/BOM and the Zs category) and LineTerminator. */
  predicate IsJsSpace(c: char) {
    || c == '\t' || c == '\n' || c == '\U{000B}' || c == '\U{000C}' || c == '\r' || c == ' '
    || c == '\U{00A0}' || c == '\U{1680}' || ('\U{2000}' <= c <= '\U{200A}')
    || c == '\U{2028}' || c == '\U{2029}' || c == '\U{202F}' || c == '\U{205F}' || c == '\U{3000}'
    || c == '\U{FEFF}'
  }

  /** Drop leading whitespace. */
  function TrimStart(s: string): (r: string)
    ensures |r| <= |s| && r == s[|s| - |r|..]
    ensures forall k :: 0 <= k < |s| - |r| ==> IsJsSpace(s[k])
    ensures r == [] || !IsJsSpace(r[0])
  {
    if s != [] && IsJsSpace(s[0]) then TrimStart(s[1..]) else s
  }

  /** Drop trailing whitespace. */
  function TrimEnd(s: string): (r: string)
    ensures |r| <= |s| && r == s[..|r|]
    ensures forall k :: |r| <= k < |s| ==> IsJsSpace(s[k])
    ensures r == [] || !IsJsSpace(r[|r| - 1])
  {
    if s != [] && IsJsSpace(s[|s| - 1]) then TrimEnd(s[..|s| - 1]) else s
  }

  /** String.prototype.trim. */
  function Trim(s: string): (r: string) {
    TrimEnd(TrimStart(s))
  }

  /** Trimming leaves no whitespace at either end; what it cuts off on
      either side is whitespace only. */
  lemma TrimShape(s: string)
    ensures var r := Trim(s); var a := |s| - |TrimStart(s)|;
      && (r == [] || (!IsJsSpace(r[0]) && !IsJsSpace(r[|r| - 1])))
      && a + |r| <= |s| && r == s[a..a + |r|]
      && (forall k :: 0 <= k < a ==> IsJsSpace(s[k]))
      && (forall k :: a + |r| <= k < |s| ==> IsJsSpace(s[k]))
  {
    TrimEnds(s);
    TrimCut(s);
  }

  /** The trimmed string starts and ends with a non-space. */
  lemma TrimEnds(s: string)
    ensures var r := Trim(s); r == [] || (!IsJsSpace(r[0]) && !IsJsSpace(r[|r| - 1]))
  {
    var t := TrimStart(s);
    var r := TrimEnd(t);
    assert r == t[..|r|];
    assert r != [] ==> r[0] == t[0];
  }

  /** The trimmed string is a run of the input with only whitespace around it. */
  lemma TrimCut(s: string)
    ensures var r := Trim(s); var a := |s| - |TrimStart(s)|;
      && a + |r| <= |s| && r == s[a..a + |r|]
      && (forall k :: 0 <= k < a ==> IsJsSpace(s[k]))
      && (forall k :: a + |r| <= k < |s| ==> IsJsSpace(s[k]))
  {
    var t := TrimStart(s);
    var r := TrimEnd(t);
    var a := |s| - |t|;
    assert r == t[..|r|];
    forall k | a + |r| <= k < |s| ensures IsJsSpace(s[k]) {
      assert s[k] == t[k - a];
    }
  }

  /** Sequelize's `notEmpty` validator: the string is not whitespace only.
      Its pattern's `\s` is the set trim removes, so "" and "  " both fail. */
  predicate NotBlank(s: string) {
    exists k :: 0 <= k < |s| && !IsJsSpace(s[k])
  }

  /** A string passes `notEmpty` exactly when trimming it leaves something. */
  lemma NotBlankIffTrimmed(s: string)
    ensures NotBlank(s) <==> Trim(s) != ""
  {
    var r := Trim(s);
    var a := |s| - |TrimStart(s)|;
    TrimCut(s);
    TrimEnds(s);
    if r != "" {
      assert s[a] == r[0];
    } else {
      assert forall k :: 0 <= k < |s| ==> IsJsSpace(s[k]) by {
        forall k | 0 <= k < |s| ensures IsJsSpace(s[k]) {
          assert k < a || a + |r| <= k;
        }
      }
    }
  }

  function LowerChar(c: char): (d: char) {
    if 'A' <= c <= 'Z' then (c as int + 32) as char else c
  }

  /** String.prototype.toLowerCase on the ASCII letters. */
  function Lower(s: string): (r: string)
    ensures |r| == |s|
    ensures forall k :: 0 <= k < |s| ==> r[k] == LowerChar(s[k])
  {
    if s == [] then [] else [LowerChar(s[0])] + Lower(s[1..])
  }

  /** Lower-casing neither creates nor removes whitespace. */
  lemma LowerKeepsSpaces(s: string)
    ensures forall k :: 0 <= k < |s| ==> (IsJsSpace(Lower(s)[k]) <==> IsJsSpace(s[k]))
  {
  }

  /** A trimmed string is its own trim. */
  lemma {:induction false} TrimOfTrimmed(s: string)
    requires s == [] || (!IsJsSpace(s[0]) && !IsJsSpace(s[|s| - 1]))
    ensures Trim(s) == s
  {
  }

  /** A string without upper-case ASCII letters is its own lower case. */
  lemma LowerOfLower(s: string)
    requires forall k :: 0 <= k < |s| ==> !('A' <= s[k] <= 'Z')
    ensures Lower(s) == s
  {
    assert forall k :: 0 <= k < |s| ==> Lower(s)[k] == s[k];
  }
}
