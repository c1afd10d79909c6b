/** Trimming and ASCII case as the program's string functions do them. */
module Text {
  /** The Unicode White_Space property. */
  predicate Whitespace(c: char) {
    var u := c as int;
    || 0x9 <= u <= 0xD || u == 0x20 || u == 0x85 || u == 0xA0 || u == 0x1680 || 0x2000 <= u <= 0x200A
    || u == 0x2028 || u == 0x2029 || u == 0x202F || u == 0x205F || u == 0x3000
  }

  function Trim(s: string): string {
    if s == [] then []
    else if Whitespace(s[0]) then Trim(s[1..])
    else if Whitespace(s[|s| - 1]) then Trim(s[..|s| - 1])
    else s
  }

  function Upper(c: char): char {
    if 'a' <= c <= 'z' then (c as int - 32) as char else c
  }

  function Lower(c: char): char {
    if 'A' <= c <= 'Z' then (c as int + 32) as char else c
  }

  function ToUpper(s: string): string {
    seq(|s|, i requires 0 <= i < |s| => Upper(s[i]))
  }

  function ToLower(s: string): string {
    seq(|s|, i requires 0 <= i < |s| => Lower(s[i]))
  }

  predicate SameIgnoringCase(a: string, b: string) {
    ToLower(a) == ToLower(b)
  }

  /** The 25 white-space characters of Unicode by number. */
  lemma WhitespaceIs(c: char)
    ensures Whitespace(c) <==> c as int in {
      9, 10, 11, 12, 13, 32, 133, 160, 5760, 8192, 8193, 8194, 8195, 8196, 8197, 8198, 8199, 8200, 8201, 8202,
      8232, 8233, 8239, 8287, 12288}
  {
  }

  /** Everything before `i` and from `j` on is white space, and what is in between does not start or end with any. */
  ghost predicate TrimsTo(s: string, i: nat, j: nat) {
    && i <= j <= |s| && Trim(s) == s[i..j]
    && (forall k :: 0 <= k < i ==> Whitespace(s[k])) && (forall k :: j <= k < |s| ==> Whitespace(s[k]))
    && (i < j ==> !Whitespace(s[i]) && !Whitespace(s[j - 1]))
  }

  /** Trimming takes white space off both ends, and nothing but white space. */
  lemma {:induction false} TrimMeans(s: string) returns (i: nat, j: nat)
    ensures TrimsTo(s, i, j)
    decreases |s|
  {
    if s == [] {
      i, j := 0, 0;
    } else if Whitespace(s[0]) {
      i, j := TrimMeans(s[1..]);
      TrimFront(s, i, j);
      i, j := i + 1, j + 1;
    } else if Whitespace(s[|s| - 1]) {
      i, j := TrimMeans(s[..|s| - 1]);
      TrimBack(s, i, j);
    } else {
      i, j := 0, |s|;
      assert s[0..|s|] == s;
    }
  }

  lemma TrimFront(s: string, i: nat, j: nat)
    requires s != [] && Whitespace(s[0]) && TrimsTo(s[1..], i, j)
    ensures TrimsTo(s, i + 1, j + 1)
  {
    assert s[1..][i..j] == s[i + 1..j + 1];
    assert forall k :: 0 < k < |s| ==> s[k] == s[1..][k - 1];
  }

  lemma TrimBack(s: string, i: nat, j: nat)
    requires s != [] && !Whitespace(s[0]) && Whitespace(s[|s| - 1]) && TrimsTo(s[..|s| - 1], i, j)
    ensures TrimsTo(s, i, j)
  {
    assert s[..|s| - 1][i..j] == s[i..j];
  }

  /** Only the 26 letters change case, each to its own partner. */
  lemma CaseIs(s: string, k: nat)
    requires k < |s|
    ensures |ToUpper(s)| == |ToLower(s)| == |s|
    ensures ToUpper(s)[k] as int == s[k] as int - (if 97 <= s[k] as int <= 122 then 32 else 0)
    ensures ToLower(s)[k] as int == s[k] as int + (if 65 <= s[k] as int <= 90 then 32 else 0)
  {
  }
}
