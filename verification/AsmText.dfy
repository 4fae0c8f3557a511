/** Replacing one operand token in an assembly template, in place, and what that does to its tokens. */
module AsmText {
  import W = Wrappers

  predicate IsAsmTokenChar(ch: char) {
    || 'a' <= ch <= 'z' || 'A' <= ch <= 'Z' || '0' <= ch <= '9'
    || ch == '_' || ch == '#'
  }

  /** The token characters, one by one. */
  lemma {:induction false} TokenCharsExactly(ch: char)
    ensures IsAsmTokenChar(ch) <==>
            ch in "abcdefghijklmnopqrstuvwxyz" || ch in "ABCDEFGHIJKLMNOPQRSTUVWXYZ" || ch in "0123456789" || ch in "_#"
  {
  }

  predicate OccursAt(text: string, needle: string, p: nat) {
    p + |needle| <= |text| && text[p..p + |needle|] == needle
  }

  /** `text.find(needle, pos)`: the first occurrence from `pos` on. */
  function Find(text: string, needle: string, pos: nat): (r: W.Option<nat>)
    ensures r.Some? ==> pos <= r.value && OccursAt(text, needle, r.value)
    ensures r.Some? ==> forall p :: pos <= p < r.value ==> !OccursAt(text, needle, p)
    ensures r.None? ==> forall p :: pos <= p ==> !OccursAt(text, needle, p)
    decreases |text| - pos
  {
    if pos + |needle| > |text| then W.None
    else if OccursAt(text, needle, pos) then W.Some(pos)
    else Find(text, needle, pos + 1)
  }

  /** Neither neighbour of the occurrence at p is a token character. */
  predicate StandsAlone(text: string, needle: string, p: nat)
    requires OccursAt(text, needle, p)
  {
    && (p == 0 || !IsAsmTokenChar(text[p - 1]))
    && (p + |needle| >= |text| || !IsAsmTokenChar(text[p + |needle|]))
  }

  function Replaced(text: string, needle: string, replacement: string, p: nat): string
    requires OccursAt(text, needle, p)
  {
    text[..p] + replacement + text[p + |needle|..]
  }

  /** The scan from `pos` on, for any needle. */
  function Scan(text: string, needle: string, replacement: string, pos: nat): string
    requires needle != [] && pos <= |text|
    decreases |text| - pos
  {
    match Find(text, needle, pos)
    case None => text
    case Some(p) =>
      if StandsAlone(text, needle, p)
      then Scan(Replaced(text, needle, replacement, p), needle, replacement, p + |replacement|)
      else Scan(text, needle, replacement, p + |needle|)
  }

  class Template {
    var text: string

    constructor (text: string)
      ensures this.text == text
    {
      this.text := text;
    }

    method ReplaceAsmToken(needle: string, replacement: string)
      modifies this
      ensures text == if needle == [] then old(text) else Scan(old(text), needle, replacement, 0)
    {
      hide Scan, Find, OccursAt, StandsAlone, Replaced;
      if |needle| == 0 {
        return;
      }
      var pos: nat := 0;
      var next := Find(text, needle, pos);
      while next.Some?
        invariant pos <= |text| && next == Find(text, needle, pos)
        invariant Scan(text, needle, replacement, pos) == Scan(old(text), needle, replacement, 0)
        decreases |text| - pos
      {
        ScanSteps(text, needle, replacement, pos);
        pos := ReplaceFound(needle, replacement, next.value);
        next := Find(text, needle, pos);
      }
      ScanSteps(text, needle, replacement, pos);
    }

    /** One turn: replace the occurrence at p if it stands alone, else step over it. */
    method ReplaceFound(needle: string, replacement: string, p: nat) returns (next: nat)
      requires OccursAt(text, needle, p)
      modifies this
      ensures
        if StandsAlone(old(text), needle, p) then
          text == Replaced(old(text), needle, replacement, p) && next == p + |replacement|
        else
          text == old(text) && next == p + |needle|
    {
      var leftOk := p == 0 || !IsAsmTokenChar(text[p - 1]);
      var right := p + |needle|;
      var rightOk := right >= |text| || !IsAsmTokenChar(text[right]);
      if !leftOk || !rightOk {
        return p + |needle|;
      }
      text := text[..p] + replacement + text[right..];
      return p + |replacement|;
    }
  }

  // ---------- Token runs ----------

  predicate AllTokenChars(s: string) {
    forall k :: 0 <= k < |s| ==> IsAsmTokenChar(s[k])
  }

  /** The length of the token run at the front. */
  function RunLength(text: string): (n: nat)
    ensures n <= |text| && AllTokenChars(text[..n])
    ensures n < |text| ==> !IsAsmTokenChar(text[n])
  {
    if text == [] || !IsAsmTokenChar(text[0]) then 0
    else
      assert text == [text[0]] + text[1..];
      1 + RunLength(text[1..])
  }

  /** The text cut into maximal token runs and single other characters. */
  function Tokens(text: string): (ts: seq<string>)
    decreases |text|
  {
    if text == [] then []
    else if RunLength(text) == 0 then [[text[0]]] + Tokens(text[1..])
    else [text[..RunLength(text)]] + Tokens(text[RunLength(text)..])
  }

  function Joined(ts: seq<string>): string {
    if ts == [] then [] else ts[0] + Joined(ts[1..])
  }

  /** Exactly the pieces equal to the needle become the replacement. */
  function Substituted(ts: seq<string>, needle: string, replacement: string): (r: seq<string>)
    ensures |r| == |ts|
    ensures forall k :: 0 <= k < |ts| ==> r[k] == if ts[k] == needle then replacement else ts[k]
  {
    seq(|ts|, (k: int) requires 0 <= k < |ts| => if ts[k] == needle then replacement else ts[k])
  }

  /** The pieces put together again are the text, and the runs among them are maximal. */
  lemma {:induction false} TokensAreMaximal(text: string, k: nat)
    requires k < |Tokens(text)|
    ensures Joined(Tokens(text)) == text
    ensures
      var t := Tokens(text)[k];
      && t != [] && (AllTokenChars(t) || (|t| == 1 && !IsAsmTokenChar(t[0])))
      && (AllTokenChars(t) && k + 1 < |Tokens(text)| ==> !AllTokenChars(Tokens(text)[k + 1]))
    decreases |text|
  {
    var n := if RunLength(text) == 0 then 1 else RunLength(text);
    var rest := Tokens(text[n..]);
    assert [text[0]] == text[..1];
    assert Tokens(text) == [text[..n]] + rest;
    assert text[..n] + text[n..] == text;
    if rest == [] {
      assert text[n..] == [];
    } else {
      TokensAreMaximal(text[n..], 0);
      if k > 0 {
        TokensAreMaximal(text[n..], k - 1);
      } else if AllTokenChars(text[..n]) {
        assert !IsAsmTokenChar(text[n]);
        assert rest[0][0] == text[n];
      }
    }
  }

  // ---------- The scan replaces whole tokens ----------

  function RunsReplaced(text: string, needle: string, replacement: string): string {
    Joined(Substituted(Tokens(text), needle, replacement))
  }

  /** What is left to do, from inside a run already passed over or from its start. */
  function Rest(text: string, inRun: bool, needle: string, replacement: string): string {
    if inRun then text[..RunLength(text)] + RunsReplaced(text[RunLength(text)..], needle, replacement)
    else RunsReplaced(text, needle, replacement)
  }

  /** A text that starts with a piece of n characters. */
  lemma {:induction false} FirstPiece(text: string, needle: string, replacement: string)
    requires text != []
    ensures
      var n := if RunLength(text) == 0 then 1 else RunLength(text);
      RunsReplaced(text, needle, replacement) ==
        (if text[..n] == needle then replacement else text[..n]) + RunsReplaced(text[n..], needle, replacement)
  {
    var n := if RunLength(text) == 0 then 1 else RunLength(text);
    var ts, rest := Tokens(text), Tokens(text[n..]);
    assert [text[0]] == text[..1];
    assert ts == [text[..n]] + rest;
    var s := Substituted(ts, needle, replacement);
    assert s[1..] == Substituted(rest, needle, replacement);
  }

  /** One character passed over: inside a run, or outside every run, or in a run that is not the needle. */
  lemma {:induction false} PassOne(text: string, inRun: bool, needle: string, replacement: string)
    requires text != [] && AllTokenChars(needle) && needle != []
    requires inRun || text[..RunLength(text)] != needle
    ensures Rest(text, inRun, needle, replacement) ==
            [text[0]] + Rest(text[1..], IsAsmTokenChar(text[0]), needle, replacement)
  {
    hide Tokens, Joined, Substituted, RunsReplaced;
    var n := RunLength(text);
    FirstPiece(text, needle, replacement);
    if n == 0 {
      assert text[..1] == [text[0]] && text[..1][0] == text[0] && text[..1] != needle;
      RestOutside(text, inRun, needle, replacement);
    } else {
      RunTail(text);
      assert text[..n] + RunsReplaced(text[n..], needle, replacement) ==
             [text[0]] + (text[1..n] + RunsReplaced(text[n..], needle, replacement));
    }
  }

  lemma {:induction false} RunTail(text: string)
    requires RunLength(text) > 0
    ensures
      var n := RunLength(text);
      && IsAsmTokenChar(text[0]) && RunLength(text[1..]) == n - 1
      && text[1..][..n - 1] == text[1..n] && text[1..][n - 1..] == text[n..]
      && text[..n] == [text[0]] + text[1..n]
  {
  }

  predicate InRun(text: string, p: nat)
    requires p <= |text|
  {
    p > 0 && IsAsmTokenChar(text[p - 1])
  }

  /** What the scan still has to produce from p on. */
  function RestAt(text: string, p: nat, needle: string, replacement: string): string
    requires p <= |text|
  {
    Rest(text[p..], InRun(text, p), needle, replacement)
  }

  /** Does a whole run equal to the needle start at p? */
  predicate WholeRunAt(text: string, p: nat, needle: string)
    requires p <= |text|
  {
    !InRun(text, p) && text[p..][..RunLength(text[p..])] == needle
  }

  lemma {:induction false} PassOneAt(text: string, p: nat, needle: string, replacement: string)
    requires p < |text| && AllTokenChars(needle) && needle != [] && !WholeRunAt(text, p, needle)
    ensures RestAt(text, p, needle, replacement) == [text[p]] + RestAt(text, p + 1, needle, replacement)
  {
    hide RunLength, RunsReplaced, Rest;
    PassOne(text[p..], InRun(text, p), needle, replacement);
    assert text[p..][1..] == text[p + 1..] && text[p..][0] == text[p];
  }

  lemma {:induction false} SliceFront(text: string, p: nat, q: nat)
    requires p <= q <= |text|
    ensures p < q ==> text[p..q] == [text[p]] + text[p + 1..q]
    ensures p == q ==> text[p..q] == []
  {
  }

  /** Passing over the characters from p to q, where no whole run equal to the needle starts. */
  lemma {:induction false} PassMany(text: string, p: nat, q: nat, needle: string, replacement: string)
    requires p <= q <= |text| && AllTokenChars(needle) && needle != []
    requires forall k :: p <= k < q ==> !WholeRunAt(text, k, needle)
    ensures RestAt(text, p, needle, replacement) == text[p..q] + RestAt(text, q, needle, replacement)
    decreases q - p
  {
    hide *;
    SliceFront(text, p, q);
    if p < q {
      PassOneAt(text, p, needle, replacement);
      PassMany(text, p + 1, q, needle, replacement);
      var rest := RestAt(text, q, needle, replacement);
      assert [text[p]] + (text[p + 1..q] + rest) == [text[p]] + text[p + 1..q] + rest;
    } else {
      assert [] + RestAt(text, q, needle, replacement) == RestAt(text, q, needle, replacement);
    }
  }

  /** A whole run equal to the needle is a lone occurrence, and the other way around. */
  lemma {:induction false} WholeRunStandsAlone(text: string, p: nat, needle: string)
    requires p <= |text| && AllTokenChars(needle) && needle != []
    ensures WholeRunAt(text, p, needle) <==> OccursAt(text, needle, p) && StandsAlone(text, needle, p)
  {
    var rest := text[p..];
    var n := RunLength(rest);
    if OccursAt(text, needle, p) {
      assert rest[..|needle|] == needle;
      assert forall k :: 0 <= k < |needle| ==> rest[k] == needle[k];
      RunCovers(rest, |needle|);
    }
    if WholeRunAt(text, p, needle) {
      assert text[p..p + |needle|] == rest[..n];
    }
  }

  lemma {:induction false} RunCovers(text: string, n: nat)
    requires n <= |text| && forall k :: 0 <= k < n ==> IsAsmTokenChar(text[k])
    ensures RunLength(text) >= n
    ensures RunLength(text) > n ==> n < |text| && IsAsmTokenChar(text[n])
  {
    var m := RunLength(text);
    assert m < |text| ==> !IsAsmTokenChar(text[m]);
    if m > n {
      assert text[..m][n] == text[n];
    }
  }

  /** After a replacement what follows is outside every run, so it does not matter what came before. */
  lemma {:induction false} RestOutside(text: string, inRun: bool, needle: string, replacement: string)
    requires RunLength(text) == 0
    ensures Rest(text, inRun, needle, replacement) == RunsReplaced(text, needle, replacement)
  {
    assert text[..0] == [] && text[0..] == text;
  }

  /** The scan from any position replaces whole runs from there on. */
  lemma {:induction false} ScanReplacesRuns(text: string, needle: string, replacement: string, pos: nat)
    requires pos <= |text| && AllTokenChars(needle) && needle != []
    ensures Scan(text, needle, replacement, pos) == text[..pos] + RestAt(text, pos, needle, replacement)
    decreases |text| - pos
  {
    hide *;
    match Find(text, needle, pos)
    case None =>
      NotFound(text, needle, pos);
      PassMany(text, pos, |text|, needle, replacement);
      RestOfNothing(text, needle, replacement);
      ScanSteps(text, needle, replacement, pos);
      Slices(text, pos, |text|);
    case Some(p) =>
      FoundAt(text, needle, pos, p);
      ScanSteps(text, needle, replacement, pos);
      PassMany(text, pos, p, needle, replacement);
      Slices(text, pos, p);
      if StandsAlone(text, needle, p) {
        ScanReplacesRuns(Replaced(text, needle, replacement, p), needle, replacement, p + |replacement|);
        ReplaceWholeRun(text, needle, replacement, p);
      } else {
        RejectedRun(text, needle, p);
        ScanReplacesRuns(text, needle, replacement, p + |needle|);
        PassMany(text, p, p + |needle|, needle, replacement);
        Slices(text, p, p + |needle|);
      }
  }

  lemma {:induction false} Slices(text: string, p: nat, q: nat)
    requires p <= q <= |text|
    ensures text[..p] + text[p..q] == text[..q]
    ensures q == |text| ==> text[..q] == text
  {
  }

  lemma {:induction false} ScanSteps(text: string, needle: string, replacement: string, pos: nat)
    requires needle != [] && pos <= |text|
    ensures
      var f := Find(text, needle, pos);
      && (f.None? ==> Scan(text, needle, replacement, pos) == text)
      && (f.Some? ==> OccursAt(text, needle, f.value) && pos <= f.value && f.value + |needle| <= |text|)
      && (f.Some? && StandsAlone(text, needle, f.value) ==>
            var next := Replaced(text, needle, replacement, f.value);
            && f.value + |replacement| <= |next| && |next| - (f.value + |replacement|) < |text| - pos
            && Scan(text, needle, replacement, pos) == Scan(next, needle, replacement, f.value + |replacement|))
      && (f.Some? && !StandsAlone(text, needle, f.value) ==>
            Scan(text, needle, replacement, pos) == Scan(text, needle, replacement, f.value + |needle|))
  {
  }

  lemma {:induction false} NotFound(text: string, needle: string, pos: nat)
    requires pos <= |text| && AllTokenChars(needle) && needle != [] && Find(text, needle, pos).None?
    ensures forall k :: pos <= k < |text| ==> !WholeRunAt(text, k, needle)
  {
    hide WholeRunAt, StandsAlone;
    forall k | pos <= k < |text|
      ensures !WholeRunAt(text, k, needle)
    {
      WholeRunStandsAlone(text, k, needle);
    }
  }

  lemma {:induction false} FoundAt(text: string, needle: string, pos: nat, p: nat)
    requires pos <= |text| && AllTokenChars(needle) && needle != [] && Find(text, needle, pos) == W.Some(p)
    ensures pos <= p && p + |needle| <= |text| && OccursAt(text, needle, p)
    ensures forall k :: pos <= k < p ==> !WholeRunAt(text, k, needle)
  {
    hide WholeRunAt, StandsAlone;
    forall k | pos <= k < p
      ensures !WholeRunAt(text, k, needle)
    {
      WholeRunStandsAlone(text, k, needle);
    }
  }

  lemma {:induction false} RestOfNothing(text: string, needle: string, replacement: string)
    ensures RestAt(text, |text|, needle, replacement) == []
  {
    assert text[|text|..] == [];
  }

  /** No whole run equal to the needle starts inside an occurrence that does not stand alone. */
  lemma {:induction false} RejectedRun(text: string, needle: string, p: nat)
    requires AllTokenChars(needle) && needle != [] && OccursAt(text, needle, p) && !StandsAlone(text, needle, p)
    ensures forall k :: p <= k < p + |needle| ==> !WholeRunAt(text, k, needle)
  {
    WholeRunStandsAlone(text, p, needle);
    forall k | p < k < p + |needle|
      ensures InRun(text, k)
    {
      assert text[p..p + |needle|][k - 1 - p] == needle[k - 1 - p];
    }
  }

  lemma {:induction false} ReplaceWholeRun(text: string, needle: string, replacement: string, p: nat)
    requires AllTokenChars(needle) && needle != [] && OccursAt(text, needle, p) && StandsAlone(text, needle, p)
    ensures
      var next, q := Replaced(text, needle, replacement, p), p + |replacement|;
      && q <= |next|
      && text[..p] + RestAt(text, p, needle, replacement) == next[..q] + RestAt(next, q, needle, replacement)
  {
    hide RunLength, RunsReplaced, StandsAlone, WholeRunAt, InRun, Replaced, AllTokenChars;
    var next, q := Replaced(text, needle, replacement, p), p + |replacement|;
    var rest, after := text[p..], text[p + |needle|..];
    WholeRunStandsAlone(text, p, needle);
    WholeRunPieces(text, needle, p);
    FirstPiece(rest, needle, replacement);
    ReplacedPieces(text, needle, replacement, p);
    RestOutside(after, InRun(next, q), needle, replacement);
    hide *;
    assert text[..p] + (replacement + RunsReplaced(after, needle, replacement)) ==
           (text[..p] + replacement) + RunsReplaced(after, needle, replacement);
  }

  lemma {:induction false} ReplacedPieces(text: string, needle: string, replacement: string, p: nat)
    requires OccursAt(text, needle, p)
    ensures
      var next, q := Replaced(text, needle, replacement, p), p + |replacement|;
      q <= |next| && next[q..] == text[p + |needle|..] && next[..q] == text[..p] + replacement
  {
  }

  /** The run at p is the needle, and what follows starts outside every run. */
  lemma {:induction false} WholeRunPieces(text: string, needle: string, p: nat)
    requires OccursAt(text, needle, p) && WholeRunAt(text, p, needle) && needle != []
    ensures
      var rest := text[p..];
      && RunLength(rest) == |needle| && rest[..|needle|] == needle && rest[|needle|..] == text[p + |needle|..]
      && RunLength(text[p + |needle|..]) == 0 && !InRun(text, p)
  {
    var rest := text[p..];
    assert |rest[..RunLength(rest)]| == RunLength(rest);
    assert rest[RunLength(rest)..] == text[p + |needle|..];
  }

  /** For a needle made of token characters the replacement pass replaces exactly the maximal token runs
      equal to it, whatever the replacement contains. */
  lemma {:induction false} ReplacementIsTokenwise(text: string, needle: string, replacement: string)
    requires AllTokenChars(needle) && needle != []
    ensures Scan(text, needle, replacement, 0) == Joined(Substituted(Tokens(text), needle, replacement))
  {
    ScanReplacesRuns(text, needle, replacement, 0);
    assert text[0..] == text && text[..0] == [];
    assert [] + RestAt(text, 0, needle, replacement) == RestAt(text, 0, needle, replacement);
  }

  // ---------- Exactly the needles for which the law holds ----------

  ghost predicate Tokenwise(needle: string)
    requires needle != []
  {
    forall text, replacement :: Scan(text, needle, replacement, 0) == RunsReplaced(text, needle, replacement)
  }

  /** The pass replaces exactly the tokens equal to the needle, for every text and replacement, if and only
      if the needle is made of token characters. */
  lemma {:induction false} TokenwiseExactly(needle: string)
    requires needle != []
    ensures Tokenwise(needle) <==> AllTokenChars(needle)
  {
    if AllTokenChars(needle) {
      forall text, replacement
        ensures Scan(text, needle, replacement, 0) == RunsReplaced(text, needle, replacement)
      {
        ReplacementIsTokenwise(text, needle, replacement);
      }
    } else {
      var text, replacement := NotTokenwise(needle);
    }
  }

  /** For any other needle there is a text that tells: the needle itself when it is longer than one
      character, which is replaced although it is no token; and a lone character behind a letter, which is
      not replaced although it is a piece of its own. */
  lemma {:induction false} NotTokenwise(needle: string) returns (text: string, replacement: string)
    requires needle != [] && !AllTokenChars(needle)
    ensures Scan(text, needle, replacement, 0) != RunsReplaced(text, needle, replacement)
  {
    if |needle| > 1 {
      text, replacement := needle, [];
      WholeTextReplaced(needle);
      NoSuchPiece(needle);
    } else {
      text, replacement := "a" + needle, "xx";
      LoneCharacterKept(needle);
    }
  }

  lemma {:induction false} WholeTextReplaced(needle: string)
    requires needle != []
    ensures Scan(needle, needle, [], 0) == []
  {
    assert needle[0..0 + |needle|] == needle;
    assert OccursAt(needle, needle, 0);
    assert Replaced(needle, needle, [], 0) == [];
    ScanSteps(needle, needle, [], 0);
    ScanSteps([], needle, [], 0);
  }

  /** A needle longer than one character that is not all token characters is never a piece of a text. */
  lemma {:induction false} NoSuchPiece(needle: string)
    requires |needle| > 1 && !AllTokenChars(needle)
    ensures RunsReplaced(needle, needle, []) == needle
  {
    forall k | 0 <= k < |Tokens(needle)|
      ensures Tokens(needle)[k] != needle
    {
      TokensAreMaximal(needle, k);
    }
    assert Substituted(Tokens(needle), needle, []) == Tokens(needle);
    if Tokens(needle) != [] {
      TokensAreMaximal(needle, 0);
    }
  }

  lemma {:induction false} LoneCharacterKept(needle: string)
    requires |needle| == 1 && !AllTokenChars(needle)
    ensures Scan("a" + needle, needle, "xx", 0) == "a" + needle
    ensures RunsReplaced("a" + needle, needle, "xx") == "axx"
  {
    var text := "a" + needle;
    assert !IsAsmTokenChar(needle[0]) && text[0] == 'a' && text[1] == needle[0];
    assert text[1..2] == needle && text[0..1] != needle;
    assert Find(text, needle, 0) == W.Some(1);
    ScanSteps(text, needle, "xx", 0);
    ScanSteps(text, needle, "xx", 2);
    assert text[..1] == "a" && text[1..] == needle && needle[1..] == [];
    FirstPiece(text, needle, "xx");
    FirstPiece(needle, needle, "xx");
    assert needle[..1] == needle;
  }

  /** An input: "a.b" in "a.b" is replaced across two tokens. */
  lemma {:induction false} OtherNeedlesCrossTokens()
    ensures Scan("a.b", "a.b", "x", 0) == "x"
    ensures RunsReplaced("a.b", "a.b", "x") == "a.b"
  {
    var t := "a.b";
    assert Find(t, t, 0) == W.Some(0);
    var next := Replaced(t, t, "x", 0);
    assert next == "x";
    assert Find(next, t, 1) == W.None;
    TokensOf("a.b");
  }

  lemma {:induction false} TokensOf(t: string)
    requires t == "a.b"
    ensures RunsReplaced(t, "a.b", "x") == t
  {
    forall k | 0 <= k < |Tokens(t)|
      ensures Tokens(t)[k] != t
    {
      TokensAreMaximal(t, k);
      assert t[1] == '.' && t[0] == 'a';
    }
    assert Substituted(Tokens(t), t, "x") == Tokens(t);
    if Tokens(t) != [] {
      TokensAreMaximal(t, 0);
    }
  }
}
