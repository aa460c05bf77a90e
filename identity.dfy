/**
 * Identity keys: the trimmed, lower-cased form of a display name that the
 * extension uses to find a character's record (normalizeCharacterKey), and the
 * `{key, name}` candidate that discovery hands to the reconciler.
 *
 * Trimming follows String.prototype.trim (ECMAScript white space and line
 * terminators); lower-casing is modelled on ASCII letters only.
 */
module Identity {
  import opened Wrappers

  /** A discovered identity: its lookup key and the display name to show. */
  datatype Candidate = Candidate(key: string, name: string)

  /** JavaScript truthiness of a possibly absent string: present and not empty. */
  predicate Truthy(s: Option<string>) {
    s.Some? && s.value != ""
  }

  /** `a || b` on possibly absent strings. */
  function Or(a: Option<string>, b: Option<string>): (r: Option<string>)
    ensures Truthy(r) <==> Truthy(a) || Truthy(b)
    ensures Truthy(a) ==> r == a
  {
    if Truthy(a) then a else b
  }

  /** The characters that String.prototype.trim removes. */
  predicate IsWhite(c: char) {
    || c == '\t' || c == '\n' || c == '\U{B}' || c == '\U{C}' || c == '\r' || c == ' '
    || c == '\U{A0}' || c == '\U{1680}' || ('\U{2000}' <= c <= '\U{200A}')
    || c == '\U{2028}' || c == '\U{2029}' || c == '\U{202F}' || c == '\U{205F}'
    || c == '\U{3000}' || c == '\U{FEFF}'
  }

  /** The first position at or after i that is not white space (or |s|). */
  function Lead(s: string, i: nat): (n: nat)
    requires i <= |s|
    ensures i <= n <= |s|
    ensures n == |s| || !IsWhite(s[n])
    ensures forall j {:trigger IsWhite(s[j])} :: i <= j < n ==> IsWhite(s[j])
    decreases |s| - i
  {
    if i < |s| && IsWhite(s[i]) then Lead(s, i + 1) else i
  }

  /** The end of s[lo..j] once the white space at its back is dropped. */
  function Tail(s: string, lo: nat, j: nat): (n: nat)
    requires lo <= j <= |s|
    ensures lo <= n <= j
    ensures n == lo || !IsWhite(s[n - 1])
    ensures forall k {:trigger IsWhite(s[k])} :: n <= k < j ==> IsWhite(s[k])
    decreases j - lo
  {
    if j > lo && IsWhite(s[j - 1]) then Tail(s, lo, j - 1) else j
  }

  /** No white space at either end. */
  predicate Trimmed(s: string) {
    s == [] || (!IsWhite(s[0]) && !IsWhite(s[|s| - 1]))
  }

  /** How many white-space characters String.prototype.trim drops at the start. */
  function LeadingWhite(s: string): (n: nat)
    ensures n <= |s|
  {
    Lead(s, 0)
  }

  /** String.prototype.trim: the infix left after dropping white space at both ends. */
  function Trim(s: string): (r: string)
    ensures Trimmed(r)
    ensures LeadingWhite(s) + |r| <= |s| && r == s[LeadingWhite(s)..LeadingWhite(s) + |r|]
    ensures forall i {:trigger IsWhite(s[i])} :: 0 <= i < LeadingWhite(s) ==> IsWhite(s[i])
    ensures forall i {:trigger IsWhite(s[i])} :: LeadingWhite(s) + |r| <= i < |s| ==> IsWhite(s[i])
  {
    var a := Lead(s, 0);
    var b := Tail(s, a, |s|);
    s[a..b]
  }

  function LowerChar(c: char): char {
    if 'A' <= c <= 'Z' then (c as int + 32) as char else c
  }

  predicate NoUpper(s: string) {
    forall i :: 0 <= i < |s| ==> !('A' <= s[i] <= 'Z')
  }

  /** String.prototype.toLowerCase, restricted to ASCII letters. */
  function Lower(s: string): (r: string)
    ensures |r| == |s| && NoUpper(r)
    ensures forall i :: 0 <= i < |s| ==> r[i] == LowerChar(s[i])
  {
    seq(|s|, i requires 0 <= i < |s| => LowerChar(s[i]))
  }

  /** The shape of every identity key: trimmed and without upper-case letters. */
  predicate KeyForm(k: string) {
    Trimmed(k) && NoUpper(k)
  }

  /** Lower-casing never turns white space into something else, nor back. */
  lemma LowerCharWhite(c: char)
    ensures IsWhite(LowerChar(c)) == IsWhite(c)
  {
  }

  lemma LowerTrimmed(t: string)
    requires Trimmed(t)
    ensures Trimmed(Lower(t))
  {
    if |t| > 0 {
      LowerCharWhite(t[0]);
      LowerCharWhite(t[|t| - 1]);
    }
  }

  /** Case-folded, trimmed form of a name. */
  function Fold(s: string): (k: string)
    ensures KeyForm(k)
    ensures |k| <= |s|
  {
    var t := Trim(s);
    LowerTrimmed(t);
    Lower(t)
  }

  /**
   * normalizeCharacterKey: `String(name || 'Unknown').trim().toLowerCase()`.
   * A missing or empty name becomes "unknown".
   */
  function NormalizeKey(name: Option<string>): (k: string)
    ensures KeyForm(k)
    ensures Truthy(name) ==> k == Fold(name.value)
    ensures !Truthy(name) ==> k == "unknown"
  {
    if Truthy(name) then Fold(name.value) else FoldUnknown(); Fold("Unknown")
  }

  lemma FoldUnknown()
    ensures Fold("Unknown") == "unknown"
  {
    var u := "Unknown";
    assert !IsWhite(u[0]) && !IsWhite(u[6]);
    TrimFixedPoint(u);
    var l := Lower(u);
    assert l == "unknown" by {
      assert |l| == 7;
      forall i | 0 <= i < 7 ensures l[i] == "unknown"[i] {
        assert l[i] == LowerChar(u[i]);
      }
    }
  }

  /** A string is its own trim exactly when it has no white space at either end. */
  lemma TrimFixedPoint(s: string)
    ensures Trim(s) == s <==> Trimmed(s)
  {
    if Trimmed(s) && s != [] {
      assert Lead(s, 0) == 0;
      assert Tail(s, 0, |s|) == |s|;
      assert s[0..|s|] == s;
    }
  }

  lemma LowerFixedPoint(s: string)
    ensures Lower(s) == s <==> NoUpper(s)
  {
    if NoUpper(s) {
      assert forall i :: 0 <= i < |s| ==> Lower(s)[i] == s[i];
    }
  }

  /** Folding is a projection onto key-shaped strings: Fold(k) == k exactly for keys. */
  lemma FoldFixedPoint(k: string)
    ensures Fold(k) == k <==> KeyForm(k)
  {
    if KeyForm(k) {
      TrimFixedPoint(k);
      LowerFixedPoint(k);
    }
  }

  lemma FoldIdempotent(s: string)
    ensures Fold(Fold(s)) == Fold(s)
  {
    FoldFixedPoint(Fold(s));
  }

  /** Folding ignores white space at the ends: the key of a trimmed name is the key of the name. */
  lemma {:induction false} FoldOfTrim(s: string)
    ensures Fold(Trim(s)) == Fold(s)
  {
    TrimFixedPoint(Trim(s));
  }

  /**
   * Normalising a key again gives the same key exactly when the key is not
   * empty. A name made only of white space is truthy, so it normalises to "",
   * and "" normalises to "unknown".
   */
  lemma NormalizeIdempotentIff(name: Option<string>)
    ensures NormalizeKey(Some(NormalizeKey(name))) == NormalizeKey(name) <==> NormalizeKey(name) != ""
  {
    var k := NormalizeKey(name);
    if k != "" {
      FoldFixedPoint(k);
    }
  }

  /** The witness for the white-space-only case. */
  lemma BlankNameGivesEmptyKey()
    ensures NormalizeKey(Some(" ")) == ""
    ensures NormalizeKey(Some(NormalizeKey(Some(" ")))) == "unknown"
  {
    assert Lead(" ", 0) == 1;
  }

  /** The keys a candidate list mentions. */
  function CandKeys(cs: seq<Candidate>): set<string> {
    set i | 0 <= i < |cs| :: cs[i].key
  }

  lemma CandKeysSnoc(cs: seq<Candidate>, c: Candidate)
    ensures CandKeys(cs + [c]) == CandKeys(cs) + {c.key}
  {
    var l := cs + [c];
    assert l[|cs|] == c;
    forall k | k in CandKeys(cs) ensures k in CandKeys(l) {
      var i :| 0 <= i < |cs| && cs[i].key == k;
      assert l[i] == cs[i];
    }
  }

  /**
   * The display name the last candidate with key k carries: what remains after
   * setting each candidate in turn into a table keyed by `key`.
   */
  function LastName(cs: seq<Candidate>, k: string): (r: Option<string>)
  {
    if cs == [] then None
    else if cs[|cs| - 1].key == k then Some(cs[|cs| - 1].name)
    else LastName(cs[..|cs| - 1], k)
  }

  /**
   * LastName(cs, k) is present exactly for the keys cs mentions, and it is the
   * name of a candidate of cs with key k after which no candidate has key k.
   */
  lemma {:induction false} LastNameSpec(cs: seq<Candidate>, k: string)
    ensures LastName(cs, k).Some? <==> k in CandKeys(cs)
    ensures LastName(cs, k).Some? ==>
      exists i :: 0 <= i < |cs| && cs[i] == Candidate(k, LastName(cs, k).value)
                && forall j :: i < j < |cs| ==> cs[j].key != k
  {
    if cs != [] {
      var p := cs[..|cs| - 1];
      assert p + [cs[|cs| - 1]] == cs;
      CandKeysSnoc(p, cs[|cs| - 1]);
      if cs[|cs| - 1].key != k {
        LastNameSpec(p, k);
        if LastName(p, k).Some? {
          var i :| 0 <= i < |p| && p[i] == Candidate(k, LastName(p, k).value)
                   && forall j :: i < j < |p| ==> p[j].key != k;
          assert cs[i] == p[i];
        }
      } else {
        assert cs[|cs| - 1] == Candidate(k, LastName(cs, k).value);
      }
    }
  }

  lemma LastNameSnoc(cs: seq<Candidate>, c: Candidate, k: string)
    ensures LastName(cs + [c], k) == if c.key == k then Some(c.name) else LastName(cs, k)
  {
    assert (cs + [c])[..|cs|] == cs;
  }
}
