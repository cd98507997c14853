/**
 NUL-terminated text in fixed buffers: the C library calls the server makes, each written
 as the loop it is and proved against a function on the buffer's text. A call that would
 overrun its destination is excluded by a precondition, so every use must prove it fits.
 */
module CString {
  import opened Options

  const NUL := '\0'

  /** How far s runs before the first `stop` (all of s when there is none). */
  function SpanNot(s: string, stop: char): (n: nat)
    ensures n <= |s|
  {
    if s == [] || s[0] == stop then 0 else 1 + SpanNot(s[1..], stop)
  }

  lemma SpanNotStops(s: string, stop: char)
    ensures var n := SpanNot(s, stop);
            && (forall i | 0 <= i < n :: s[i] != stop)
            && (n < |s| ==> s[n] == stop)
  {
  }

  /** The part of s before the first `stop`. */
  function Before(s: string, stop: char): string {
    s[..SpanNot(s, stop)]
  }

  lemma BeforeStops(s: string, stop: char)
    ensures stop !in Before(s, stop) && Before(s, stop) <= s
    ensures |Before(s, stop)| < |s| ==> s[|Before(s, stop)|] == stop
  {
    SpanNotStops(s, stop);
  }

  lemma BeforeIs(s: string, stop: char, r: string)
    requires stop !in r && r <= s
    requires |r| < |s| ==> s[|r|] == stop
    ensures Before(s, stop) == r
  {
    SpanNotStops(s, stop);
    assert |r| < |s| ==> s[|r|] == stop;
    assert forall i | 0 <= i < |r| :: r[i] == s[i];
  }

  // ----- the text a buffer holds -----

  /** The buffer contains a NUL. */
  predicate Terminated(b: seq<char>) {
    SpanNot(b, NUL) < |b|
  }

  /** What strlen, printf and the other calls see in the buffer. */
  function Text(b: seq<char>): string {
    Before(b, NUL)
  }

  lemma TextStops(b: seq<char>)
    ensures NUL !in Text(b) && Text(b) <= b
    ensures Terminated(b) ==> b[|Text(b)|] == NUL
  {
    BeforeStops(b, NUL);
  }

  lemma TextIs(b: seq<char>, t: string)
    requires NUL !in t && |t| < |b|
    requires b[..|t|] == t && b[|t|] == NUL
    ensures Terminated(b) && Text(b) == t
  {
    BeforeIs(b, NUL, t);
  }

  /** Everything after the text is NUL, as in a buffer just cleared and then appended to. */
  predicate Padded(b: seq<char>) {
    Terminated(b) && forall i | |Text(b)| <= i < |b| :: b[i] == NUL
  }

  // ----- the same, of a buffer in the heap -----

  ghost predicate IsStr(a: array<char>)
    reads a
  {
    Terminated(a[..])
  }

  ghost function Str(a: array<char>): string
    reads a
  {
    Text(a[..])
  }

  method StrLen(a: array<char>) returns (n: nat)
    requires IsStr(a)
    ensures n == |Str(a)|
  {
    SpanNotStops(a[..], NUL);
    n := 0;
    while a[n] != NUL
      invariant n <= |Str(a)|
      decreases a.Length - n
    {
      assert n != |Str(a)|;
      n := n + 1;
    }
    assert a[..][n] == NUL;
  }

  /** new CHAR[length], then memset to zero */
  method NewBuffer(length: nat) returns (a: array<char>)
    requires length > 0
    ensures fresh(a) && a.Length == length
    ensures IsStr(a) && Str(a) == ""
  {
    a := new char[length];
    Clear(a);
  }

  /** memset(a, 0, length) */
  method Clear(a: array<char>)
    requires a.Length > 0
    modifies a
    ensures Padded(a[..]) && IsStr(a) && Str(a) == ""
  {
    for i := 0 to a.Length
      invariant forall k | 0 <= k < i :: a[k] == NUL
    {
      a[i] := NUL;
    }
    TextIs(a[..], "");
  }

  /** The bytes src and a NUL written at offset `at`: what strcat_s and strncpy_s do to a buffer. */
  method Write(a: array<char>, at: nat, src: string)
    requires at + |src| < a.Length
    modifies a
    ensures a[..] == old(a[..at]) + src + [NUL] + old(a[at + |src| + 1..])
  {
    for i := 0 to |src|
      invariant a[at..at + i] == src[..i]
      invariant forall k | 0 <= k < a.Length && !(at <= k < at + i) :: a[k] == old(a[k])
    {
      a[at + i] := src[i];
      assert a[at..at + i + 1] == a[at..at + i] + [src[i]];
    }
    a[at + |src|] := NUL;
    assert a[at..at + |src|] == src;
  }

  /** strcat_s(dst, size, src): both the size it is told and the real length must suffice. */
  method StrCat(dst: array<char>, size: nat, src: string)
    requires IsStr(dst) && NUL !in src
    requires |Str(dst)| + |src| < size
    requires |Str(dst)| + |src| < dst.Length
    modifies dst
    ensures IsStr(dst) && Str(dst) == old(Str(dst)) + src
    ensures old(Padded(dst[..])) ==> Padded(dst[..])
  {
    ghost var was := Str(dst);
    TextStops(dst[..]);
    var n := StrLen(dst);
    Write(dst, n, src);
    assert dst[..n + |src|] == was + src;
    TextIs(dst[..], was + src);
  }

  /** strncpy_s(dst, size, src, strlen(src)) */
  method StrNCpy(dst: array<char>, size: nat, src: string)
    requires NUL !in src
    requires |src| < size && |src| < dst.Length
    modifies dst
    ensures IsStr(dst) && Str(dst) == src
    ensures old(Padded(dst[..]) && Str(dst) == "") ==> Padded(dst[..])
  {
    Write(dst, 0, src);
    assert dst[..|src|] == src;
    TextIs(dst[..], src);
  }

  // ----- searching: strstr, ISO C11 section 7.24.5.7 -----

  predicate OccursAt(s: string, key: string, i: nat) {
    i + |key| <= |s| && s[i..i + |key|] == key
  }

  function FindFrom(s: string, key: string, from: nat): (r: Option<nat>)
    requires from <= |s|
    ensures r.Some? ==> from <= r.value && r.value + |key| <= |s|
    decreases |s| - from
  {
    if from + |key| > |s| then None
    else if OccursAt(s, key, from) then Some(from)
    else FindFrom(s, key, from + 1)
  }

  /** The leftmost occurrence of key in s. */
  function FindFirst(s: string, key: string): (r: Option<nat>)
    ensures r.Some? ==> r.value + |key| <= |s|
  {
    FindFrom(s, key, 0)
  }

  /** i is where key first occurs in s, when s contains it. */
  ghost predicate IsFirst(s: string, key: string, from: nat, r: Option<nat>) {
    match r
    case Some(i) => from <= i && OccursAt(s, key, i) && forall j: nat | from <= j < i :: !OccursAt(s, key, j)
    case None => forall j: nat | from <= j :: !OccursAt(s, key, j)
  }

  lemma {:induction false} FindFromIsFirst(s: string, key: string, from: nat)
    requires from <= |s|
    ensures IsFirst(s, key, from, FindFrom(s, key, from))
    decreases |s| - from
  {
    if from + |key| <= |s| && !OccursAt(s, key, from) {
      FindFromIsFirst(s, key, from + 1);
    }
  }

  lemma FindFirstIsFirst(s: string, key: string)
    ensures IsFirst(s, key, 0, FindFirst(s, key))
  {
    FindFromIsFirst(s, key, 0);
  }

  lemma FindFirstIs(s: string, key: string, r: Option<nat>)
    requires IsFirst(s, key, 0, r)
    ensures FindFirst(s, key) == r
  {
    FindFirstIsFirst(s, key);
    assert r.Some? ==> OccursAt(s, key, r.value);
    assert FindFirst(s, key).Some? ==> OccursAt(s, key, FindFirst(s, key).value);
  }

  method StrStr(a: array<char>, key: string) returns (r: Option<nat>)
    requires IsStr(a)
    ensures r == FindFirst(Str(a), key)
  {
    ghost var text := Str(a);
    var n := StrLen(a);
    var i := 0;
    while i + |key| <= n
      invariant forall j: nat | j < i :: !OccursAt(text, key, j)
    {
      var k := 0;
      while k < |key| && a[i + k] == key[k]
        invariant k <= |key| && text[i..i + k] == key[..k]
      {
        assert text[i + k] == a[i + k];
        assert text[i..i + k + 1] == text[i..i + k] + [text[i + k]];
        k := k + 1;
      }
      if k == |key| {
        r := Some(i);
        FindFirstIs(text, key, r);
        return;
      }
      assert !OccursAt(text, key, i) by {
        assert text[i..i + |key|][k] == text[i + k] == a[i + k];
      }
      i := i + 1;
    }
    r := None;
    FindFirstIs(text, key, r);
  }

  // ----- scansets, ISO C11 section 7.21.6.2: at least one character, otherwise nothing is assigned -----

  method ScanSpan(a: array<char>, from: nat, stop: char) returns (n: nat)
    requires IsStr(a) && from <= |Str(a)|
    ensures n == SpanNot(Str(a)[from..], stop)
  {
    ghost var text := Str(a);
    SpanNotStops(a[..], NUL);
    SpanNotStops(text[from..], stop);
    n := 0;
    while a[from + n] != NUL && a[from + n] != stop
      invariant from + n <= |text|
      invariant forall k | 0 <= k < n :: text[from..][k] != stop
      decreases |text| - n
    {
      assert a[from + n] == a[..][from + n];
      assert text[from..][n] == a[from + n];
      n := n + 1;
    }
    assert a[..][from + n] == a[from + n];
    if n < |text[from..]| {
      assert text[from..][n] == a[from + n];
    }
  }

  /** What the format `%*[^=]=%[^&]` assigns when it reads s. */
  function ScanPair(s: string): Option<string> {
    var eq := SpanNot(s, '=');
    if eq == 0 || eq == |s| then None
    else
      var value := Before(s[eq + 1..], '&');
      if value == "" then None else Some(value)
  }

  /** The format assigns the text after the first '=' up to the next '&', if it and the text before are not empty. */
  lemma PairScanned(name: string, value: string, rest: string)
    requires '=' !in name && '&' !in value && (rest == "" || rest[0] == '&')
    ensures ScanPair(name + "=" + value + rest) == if name == "" || value == "" then None else Some(value)
  {
    var s := name + "=" + value + rest;
    BeforeIs(s, '=', name);
    assert SpanNot(s, '=') == |name|;
    assert s[|name| + 1..] == value + rest;
    BeforeIs(value + rest, '&', value);
  }

  lemma NoPairScanned(s: string)
    requires '=' !in s
    ensures ScanPair(s) == None
  {
    SpanNotStops(s, '=');
  }

  /** Where the format finds its value in the buffer; len is 0 when it assigns nothing. */
  method LocatePair(a: array<char>, start: nat) returns (from: nat, len: nat)
    requires IsStr(a) && start <= |Str(a)|
    ensures from + len <= |Str(a)|
    ensures ScanPair(Str(a)[start..]) == if len == 0 then None else Some(Str(a)[from..from + len])
  {
    ghost var s := Str(a)[start..];
    TextStops(a[..]);
    var eq := ScanSpan(a, start, '=');
    assert a[start + eq] == a[..][start + eq];
    if eq == 0 || a[start + eq] == NUL {
      assert eq < |s| ==> s[eq] == a[start + eq];
      return start, 0;
    }
    assert eq < |s|;
    from := start + eq + 1;
    assert Str(a)[from..] == s[eq + 1..];
    len := ScanSpan(a, from, '&');
    assert Before(s[eq + 1..], '&') == Str(a)[from..from + len];
  }

  /** sscanf_s(a + start, "%*[^=]=%[^&]", out) */
  method SScanPair(a: array<char>, start: nat, out: array<char>)
    requires IsStr(a) && start <= |Str(a)|
    requires a != out && a.Length <= out.Length
    requires IsStr(out)
    modifies out
    ensures IsStr(out)
    ensures Str(out) == match ScanPair(Str(a)[start..])
                        case Some(v) => v
                        case None => old(Str(out))
  {
    var from, len := LocatePair(a, start);
    if len > 0 {
      TextStops(a[..]);
      assert a[from..from + len] == Str(a)[from..from + len];
      StrNCpy(out, out.Length, a[from..from + len]);
    }
  }

  // ----- prefix test: _strnicmp in the C locale -----

  function Lower(c: char): char {
    if 'A' <= c <= 'Z' then (c as int + 32) as char else c
  }

  /** The first |prefix| characters of s equal prefix up to letter case. */
  predicate StartsWithIgnoreCase(s: string, prefix: string) {
    |prefix| <= |s| && forall i | 0 <= i < |prefix| :: Lower(s[i]) == Lower(prefix[i])
  }

  /** 0 == _strnicmp(a, prefix, strlen(prefix)) */
  method StrNICmpEqual(a: array<char>, prefix: string) returns (same: bool)
    requires IsStr(a) && NUL !in prefix
    ensures same == StartsWithIgnoreCase(Str(a), prefix)
  {
    ghost var text := Str(a);
    TextStops(a[..]);
    var i := 0;
    while i < |prefix|
      invariant i <= |prefix| && i <= |text|
      invariant forall k | 0 <= k < i :: Lower(text[k]) == Lower(prefix[k])
    {
      assert a[i] == a[..][i];
      if i < |text| { assert text[i] == a[i]; }
      if Lower(a[i]) != Lower(prefix[i]) {
        assert i < |text| ==> Lower(text[i]) != Lower(prefix[i]);
        return false;
      }
      assert prefix[i] != NUL;
      i := i + 1;
    }
    same := true;
  }
}
