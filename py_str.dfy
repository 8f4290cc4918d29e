/** The few Python string behaviours the request handlers rely on. */
module PyStr {
  import opened Wrappers

  /** The characters `str.isspace()` accepts (whitespace, separators and the Unicode space characters). */
  const Whitespace: set<char> := {
    ' ', '\t', '\n', '\r', '\U{0B}', '\U{0C}', '\U{1C}', '\U{1D}', '\U{1E}', '\U{1F}',
    '\U{85}', '\U{A0}', '\U{1680}', '\U{2000}', '\U{2001}', '\U{2002}', '\U{2003}', '\U{2004}',
    '\U{2005}', '\U{2006}', '\U{2007}', '\U{2008}', '\U{2009}', '\U{200A}', '\U{2028}', '\U{2029}',
    '\U{202F}', '\U{205F}', '\U{3000}'
  }

  predicate IsSpace(c: char)
  {
    c in Whitespace
  }

  /** How many whitespace characters `s` starts with. */
  function LeadingSpaces(s: string): (n: nat)
    ensures n <= |s|
    ensures forall i :: 0 <= i < n ==> IsSpace(s[i])
    ensures n < |s| ==> !IsSpace(s[n])
  {
    if s == [] || !IsSpace(s[0]) then 0 else 1 + LeadingSpaces(s[1..])
  }

  /** How many whitespace characters `s` ends with. */
  function TrailingSpaces(s: string): (n: nat)
    ensures n <= |s|
    ensures forall i :: |s| - n <= i < |s| ==> IsSpace(s[i])
    ensures n < |s| ==> !IsSpace(s[|s| - n - 1])
  {
    if s == [] || !IsSpace(s[|s| - 1]) then 0 else 1 + TrailingSpaces(s[..|s| - 1])
  }

  /** `s.strip()`: `s` without its leading and trailing whitespace. */
  function Strip(s: string): string
  {
    var rest := s[LeadingSpaces(s)..];
    rest[..|rest| - TrailingSpaces(rest)]
  }

  /** Where `s.strip()` starts in `s`. */
  function StripStart(s: string): nat
  {
    LeadingSpaces(s)
  }

  /** Where `s.strip()` ends in `s`. */
  function StripEnd(s: string): int
  {
    |s| - TrailingSpaces(s[LeadingSpaces(s)..])
  }

  /**
    `s.strip()` is the middle of `s`: everything it drops on either side is
    whitespace, and it neither starts nor ends with whitespace.
  */
  lemma StripShape(s: string)
    ensures 0 <= StripStart(s) <= StripEnd(s) <= |s|
    ensures Strip(s) == s[StripStart(s)..StripEnd(s)]
    ensures forall i :: 0 <= i < StripStart(s) ==> IsSpace(s[i])
    ensures forall i :: StripEnd(s) <= i < |s| ==> IsSpace(s[i])
    ensures Strip(s) != [] ==> !IsSpace(Strip(s)[0]) && !IsSpace(Strip(s)[|Strip(s)| - 1])
  {
    var lead := LeadingSpaces(s);
    var rest := s[lead..];
    var trail := TrailingSpaces(rest);
    assert rest[..|rest| - trail] == s[lead..|s| - trail];
    forall i | StripEnd(s) <= i < |s| ensures IsSpace(s[i]) {
      assert s[i] == rest[i - lead];
    }
  }

  /** `s.strip()` is empty exactly when every character of `s` is whitespace. */
  lemma StripEmpty(s: string)
    ensures Strip(s) == [] <==> forall i :: 0 <= i < |s| ==> IsSpace(s[i])
  {
    StripShape(s);
    if forall i :: 0 <= i < |s| ==> IsSpace(s[i]) {
      assert LeadingSpaces(s) == |s|;
    }
  }

  /** Stripping twice is stripping once. */
  lemma StripIdempotent(s: string)
    ensures Strip(Strip(s)) == Strip(s)
  {
    var r := Strip(s);
    StripShape(s);
    if r != [] {
      assert LeadingSpaces(r) == 0;
      assert r[0..] == r;
      assert TrailingSpaces(r) == 0;
    }
  }

  /** Python truthiness of an optional JSON string: present and non-empty. */
  predicate TruthyText(s: Option<string>)
  {
    s.Some? && s.value != ""
  }

  /** Python truthiness of an optional JSON integer: present and non-zero. */
  predicate TruthyInt(n: Option<int>)
  {
    n.Some? && n.value != 0
  }

  /** `d.get(key, default)` for a key that may be absent. */
  function OrDefault<T>(o: Option<T>, default: T): (r: T)
    ensures o.Some? ==> r == o.value
    ensures o.None? ==> r == default
  {
    if o.Some? then o.value else default
  }
}
