/** Message identifiers inside a References value: the tokens of `<[^<>]+>` (cloudflare_api.py). */
module MessageIds {
  import opened Text

  /** A Python `str`. */
  type Str = seq<CodePoint>

  const OPEN: CodePoint := 0x3C
  const CLOSE: CodePoint := 0x3E
  const BLANK: Str := [0x20]

  predicate Plain(c: CodePoint) {
    c != OPEN && c != CLOSE
  }

  /** What the expression matches. */
  predicate IsId(t: Str) {
    && |t| >= 3 && t[0] == OPEN && t[|t| - 1] == CLOSE
    && forall i | 0 < i < |t| - 1 :: Plain(t[i])
  }

  /** How many characters pass before the next angle bracket. */
  function Run(s: Str): (n: nat)
    ensures n <= |s| && (forall i | 0 <= i < n :: Plain(s[i])) && (n < |s| ==> !Plain(s[n]))
  {
    if s != [] && Plain(s[0]) then 1 + Run(s[1..]) else 0
  }

  predicate StartsWithId(s: Str) {
    && s != [] && s[0] == OPEN
    && var n := Run(s[1..]);
       n > 0 && n + 1 < |s| && s[n + 1] == CLOSE
  }

  /** `_MSGID_RE.findall`. */
  function FindAll(s: Str): seq<Str> {
    if s == [] then []
    else if StartsWithId(s) then
      var n := Run(s[1..]) + 2;
      [s[..n]] + FindAll(s[n..])
    else FindAll(s[1..])
  }

  /** `sep.join(parts)`. */
  function Join(parts: seq<Str>, sep: Str): Str {
    if parts == [] then []
    else if |parts| == 1 then parts[0]
    else parts[0] + sep + Join(parts[1..], sep)
  }

  /** Plain characters up to a bracket make up the run. */
  lemma {:induction false} RunIs(s: Str, n: nat)
    requires n < |s| && !Plain(s[n]) && forall i | 0 <= i < n :: Plain(s[i])
    ensures Run(s) == n
  {
    if n == 0 {
    } else {
      RunIs(s[1..], n - 1);
    }
  }

  lemma {:induction false} FirstId(t: Str, rest: Str)
    requires IsId(t)
    ensures StartsWithId(t + rest) && Run((t + rest)[1..]) == |t| - 2
  {
    RunIs((t + rest)[1..], |t| - 2);
  }

  lemma {:induction false} FindFirst(t: Str, rest: Str)
    requires IsId(t)
    ensures FindAll(t + rest) == [t] + FindAll(rest)
  {
    FirstId(t, rest);
    assert (t + rest)[..|t|] == t && (t + rest)[|t|..] == rest;
  }

  predicate OccursAt(s: Str, i: nat, t: Str) {
    i + |t| <= |s| && s[i..i + |t|] == t
  }

  /** An opening angle bracket, something without angle brackets, and a closing one. */
  ghost predicate Identifier(t: Str) {
    && |t| >= 3 && t[0] == '<' as int && t[|t| - 1] == '>' as int
    && forall i | 0 < i < |t| - 1 :: t[i] != '<' as int && t[i] != '>' as int
  }

  /** The tokens found are exactly the identifiers that occur anywhere in the text. */
  lemma {:induction false} FoundIff(s: Str, t: Str)
    ensures t in FindAll(s) <==> Identifier(t) && exists i: nat :: OccursAt(s, i, t)
  {
    assert Identifier(t) <==> IsId(t);
    if t in FindAll(s) {
      FoundOccurs(s, t);
    }
    if i: nat :| Identifier(t) && OccursAt(s, i, t) {
      OccursFound(s, i, t);
    }
  }

  lemma {:induction false} FoundOccurs(s: Str, t: Str)
    requires t in FindAll(s)
    ensures IsId(t) && exists i: nat :: OccursAt(s, i, t)
  {
    if StartsWithId(s) {
      var n := Run(s[1..]) + 2;
      if t == s[..n] {
        assert forall i | 0 < i < n - 1 :: t[i] == s[1..][i - 1];
        assert OccursAt(s, 0, t);
      } else {
        FoundOccurs(s[n..], t);
        var i: nat :| OccursAt(s[n..], i, t);
        assert OccursAt(s, n + i, t);
      }
    } else {
      FoundOccurs(s[1..], t);
      var i: nat :| OccursAt(s[1..], i, t);
      assert OccursAt(s, 1 + i, t);
    }
  }

  lemma {:induction false} OccursFound(s: Str, i: nat, t: Str)
    requires IsId(t) && OccursAt(s, i, t)
    ensures t in FindAll(s)
  {
    if i == 0 {
      assert s == t + s[|t|..];
      FindFirst(t, s[|t|..]);
    } else if StartsWithId(s) {
      var n := Run(s[1..]) + 2;
      assert s[i] == t[0];
      assert i < n - 1 ==> Plain(s[1..][i - 1]);
      assert s[n..][i - n..i - n + |t|] == t;
      OccursFound(s[n..], i - n, t);
    } else {
      assert s[1..][i - 1..i - 1 + |t|] == t;
      OccursFound(s[1..], i - 1, t);
    }
  }

  /** Identifiers joined by blanks are found again, in order. */
  lemma {:induction false} FindJoined(ids: seq<Str>)
    requires forall t | t in ids :: IsId(t)
    ensures FindAll(Join(ids, [' ' as int])) == ids
  {
    if ids == [] {
    } else if |ids| == 1 {
      FindFirst(ids[0], []);
      assert ids[0] + [] == ids[0];
      assert ids == [ids[0]] + [];
    } else {
      var rest := Join(ids[1..], BLANK);
      assert Join(ids, BLANK) == ids[0] + (BLANK + rest);
      FindFirst(ids[0], BLANK + rest);
      assert (BLANK + rest)[1..] == rest;
      FindJoined(ids[1..]);
    }
  }
}
