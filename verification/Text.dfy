/** Option, and the string helpers that printers and readers share. */
module Text {

  datatype Option<+T> = None | Some(value: T) {
    predicate IsFailure() {
      None?
    }

    function PropagateFailure<U>(): Option<U>
      requires None?
    {
      None
    }

    function Extract(): T
      requires Some?
    {
      value
    }
  }

  /** The result of taking a token from the front of a text: what was taken and what is left. */
  datatype Taken<+T> = Taken(value: T, rest: string)

  /** Array.prototype.join. */
  function Join(parts: seq<string>, separator: string): string {
    if parts == [] then ""
    else if |parts| == 1 then parts[0]
    else parts[0] + separator + Join(parts[1..], separator)
  }

  function Concat(parts: seq<string>): string {
    if parts == [] then "" else parts[0] + Concat(parts[1..])
  }

  lemma {:induction false} ConcatSnoc(parts: seq<string>, last: string)
    ensures Concat(parts + [last]) == Concat(parts) + last
  {
    if parts == [] {
    } else {
      assert (parts + [last])[1..] == parts[1..] + [last];
      ConcatSnoc(parts[1..], last);
    }
  }

  /** The length of the longest prefix whose characters all satisfy p. */
  function RunLength(p: char -> bool, s: string): (n: nat)
    ensures n <= |s|
    ensures forall i :: 0 <= i < n ==> p(s[i])
    ensures n < |s| ==> !p(s[n])
  {
    if s == "" || !p(s[0]) then 0 else 1 + RunLength(p, s[1..])
  }

  /** That prefix, and the text behind it. */
  function TakeWhile(p: char -> bool, s: string): (r: Taken<string>)
    ensures s == r.value + r.rest
    ensures forall i :: 0 <= i < |r.value| ==> p(r.value[i])
    ensures r.rest == "" || !p(r.rest[0])
  {
    Taken(s[..RunLength(p, s)], s[RunLength(p, s)..])
  }

  /** Taking back a run of p-characters that is followed by something else. */
  lemma TakeWhileExact(p: char -> bool, run: string, rest: string)
    requires forall i :: 0 <= i < |run| ==> p(run[i])
    requires rest == "" || !p(rest[0])
    ensures TakeWhile(p, run + rest) == Taken(run, rest)
  {
    assert RunLength(p, run + rest) == |run|;
    assert (run + rest)[..|run|] == run && (run + rest)[|run|..] == rest;
  }

  /** Consumes a fixed prefix. */
  function Expect(prefix: string, s: string): (r: Option<string>)
    ensures r.Some? <==> prefix <= s
    ensures r.Some? ==> s == prefix + r.value
  {
    if prefix <= s then Some(s[|prefix|..]) else None
  }

  lemma ExpectExact(prefix: string, rest: string)
    ensures Expect(prefix, prefix + rest) == Some(rest)
  {
  }

  /** s.replace(/c/g, repl) for a single character c. */
  function ReplaceAll(s: string, c: char, repl: string): string {
    if s == "" then ""
    else (if s[0] == c then repl else [s[0]]) + ReplaceAll(s[1..], c, repl)
  }

  function LowerChar(c: char): char {
    if 'A' <= c <= 'Z' then c - 'A' + 'a' else c
  }

  /** toLowerCase, and the folding of a case-insensitive comparison, on ASCII letters. */
  function Lower(s: string): (r: string)
    ensures |r| == |s|
  {
    if s == "" then "" else [LowerChar(s[0])] + Lower(s[1..])
  }

  predicate IsBlank(c: char) {
    c == ' ' || c == '\t' || c == '\n' || c == 11 as char || c == 12 as char || c == '\r'
  }

  /** String.prototype.trim, for ASCII white space. */
  function Trim(s: string): (r: string)
    ensures |r| <= |s|
    decreases |s|
  {
    if s == "" then ""
    else if IsBlank(s[0]) then Trim(s[1..])
    else if IsBlank(s[|s| - 1]) then Trim(s[..|s| - 1])
    else s
  }

  /** The two texts have the same letters up to case, and otherwise the same characters. */
  ghost predicate SameUpToCase(a: string, b: string) {
    |a| == |b| && forall i :: 0 <= i < |a| ==>
      || a[i] == b[i]
      || ('A' <= a[i] <= 'Z' && b[i] as int == a[i] as int + 32)
      || ('A' <= b[i] <= 'Z' && a[i] as int == b[i] as int + 32)
  }

  lemma {:induction false} LowerAt(s: string, i: nat)
    requires i < |s|
    ensures Lower(s)[i] == LowerChar(s[i])
  {
    if i > 0 { LowerAt(s[1..], i - 1); }
  }

  /** Folding identifies exactly the texts that are the same up to case. */
  lemma LowerIff(a: string, b: string)
    ensures Lower(a) == Lower(b) <==> SameUpToCase(a, b)
  {
    hide Lower;
    forall i | 0 <= i < |a|
      ensures Lower(a)[i] == LowerChar(a[i])
    {
      LowerAt(a, i);
    }
    forall i | 0 <= i < |b|
      ensures Lower(b)[i] == LowerChar(b[i])
    {
      LowerAt(b, i);
    }
    if Lower(a) == Lower(b) {
      forall i | 0 <= i < |a|
        ensures LowerChar(a[i]) == LowerChar(b[i])
      {
        assert Lower(a)[i] == Lower(b)[i];
      }
    }
  }

  /** The trimmed text is what is left between blanks, and has none at its ends. */
  ghost predicate IsTrimmed(s: string, front: nat, back: nat, trimmed: string) {
    && front <= back <= |s| && trimmed == s[front..back]
    && (forall i :: 0 <= i < front || back <= i < |s| ==> s[i] in " \t\n\r" + [11 as char, 12 as char])
    && (trimmed != "" ==> !IsBlank(trimmed[0]) && !IsBlank(trimmed[|trimmed| - 1]))
  }

  lemma BlanksAre(c: char)
    ensures IsBlank(c) <==> c in " \t\n\r" + [11 as char, 12 as char]
  {
  }

  lemma BlankInFront(s: string, front: nat, back: nat, trimmed: string)
    requires s != "" && s[0] in " \t\n\r" + [11 as char, 12 as char] && IsTrimmed(s[1..], front, back, trimmed)
    ensures IsTrimmed(s, front + 1, back + 1, trimmed)
  {
    forall i | 0 <= i < front + 1 || back + 1 <= i < |s|
      ensures s[i] in " \t\n\r" + [11 as char, 12 as char]
    {
      assert i > 0 ==> s[i] == s[1..][i - 1];
    }
  }

  lemma BlankBehind(s: string, front: nat, back: nat, trimmed: string)
    requires s != "" && s[|s| - 1] in " \t\n\r" + [11 as char, 12 as char] && IsTrimmed(s[..|s| - 1], front, back, trimmed)
    ensures IsTrimmed(s, front, back, trimmed)
  {
    forall i | 0 <= i < front || back <= i < |s|
      ensures s[i] in " \t\n\r" + [11 as char, 12 as char]
    {
      assert i < |s| - 1 ==> s[i] == s[..|s| - 1][i];
    }
  }

  lemma {:induction false} TrimIsTrimmed(s: string) returns (front: nat, back: nat)
    ensures IsTrimmed(s, front, back, Trim(s))
    decreases |s|
  {
    hide IsTrimmed;
    if s == "" {
      front, back := 0, 0;
      NothingToTrim(s);
    } else if IsBlank(s[0]) {
      var f, b := TrimIsTrimmed(s[1..]);
      front, back := f + 1, b + 1;
      BlanksAre(s[0]);
      BlankInFront(s, f, b, Trim(s[1..]));
    } else if IsBlank(s[|s| - 1]) {
      front, back := TrimIsTrimmed(s[..|s| - 1]);
      BlanksAre(s[|s| - 1]);
      BlankBehind(s, front, back, Trim(s[..|s| - 1]));
    } else {
      front, back := 0, |s|;
      NothingToTrim(s);
    }
  }

  lemma NothingToTrim(s: string)
    requires s == "" || (!IsBlank(s[0]) && !IsBlank(s[|s| - 1]))
    ensures IsTrimmed(s, 0, |s|, s)
  {
    if s != "" {
      BlanksAre(s[0]);
      BlanksAre(s[|s| - 1]);
    }
  }
}
