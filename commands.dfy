/** Command dispatch in `main`: the command key of a help line is the text
    before its first whitespace, and the first line whose key equals the
    command-line verb is run. The environment, `process.argv` and the usage
    printing are not modelled. */
module Commands {
  import opened Base

  /** `\s` in a JavaScript regular expression: the white-space and
      line-terminator characters of ECMAScript. */
  predicate IsJsWhitespace(c: char) {
    c == '\t' || c == '\U{b}' || c == '\U{c}' || c == ' ' || c == '\U{a0}' || c == '\U{feff}'
    || c == '\U{1680}' || ('\U{2000}' <= c <= '\U{200a}') || c == '\U{202f}' || c == '\U{205f}'
    || c == '\U{3000}' || IsLineTerminator(c)
  }

  predicate NoWhitespace(s: string) {
    forall i :: 0 <= i < |s| ==> !IsJsWhitespace(s[i])
  }

  /** Where the first white-space character is, or `|s|` if there is none. */
  function FirstWhitespace(s: string): (i: nat)
    ensures i <= |s| && NoWhitespace(s[..i])
    ensures i < |s| ==> IsJsWhitespace(s[i])
  {
    if s == [] || IsJsWhitespace(s[0]) then 0
    else
      var i := 1 + FirstWhitespace(s[1..]);
      assert s[..i] == [s[0]] + s[1..][..i - 1];
      i
  }

  /** Where the first line terminator at or after `from` is, or `|s|`. */
  function LineEnd(s: string, from: nat): (j: nat)
    requires from <= |s|
    ensures from <= j <= |s| && NoLineTerminator(s[from..j])
    ensures j < |s| ==> IsLineTerminator(s[j])
    decreases |s| - from
  {
    if from == |s| || IsLineTerminator(s[from]) then from
    else
      var j := LineEnd(s, from + 1);
      assert s[from..j] == [s[from]] + s[from + 1..j];
      j
  }

  /** `n.replace(/\s.*\/, "")`: the first white-space character and the rest
      of its line are removed. The key is the text before the first
      white-space character, followed by the part of `n` from the next line
      terminator on (nothing if there is none). */
  function CommandKey(n: string): (k: string)
    ensures var i := FirstWhitespace(n);
      i <= |k| <= |n| && k[..i] == n[..i]
      && k[i..] == n[|n| - (|k| - i)..]
      && (|k| == i || IsLineTerminator(k[i]))
    ensures var i, j := FirstWhitespace(n), |n| - (|k| - FirstWhitespace(n));
      (i == |n| ==> k == n)
      && (i < |n| ==> i < j && NoLineTerminator(n[i + 1..j]) && (j < |n| ==> IsLineTerminator(n[j])))
  {
    var i := FirstWhitespace(n);
    if i == |n| then n
    else
      var j := LineEnd(n, i + 1);
      var k := n[..i] + n[j..];
      assert k[..i] == n[..i] && k[i..] == n[j..];
      assert |k| == i + (|n| - j);
      k
  }

  /** On a one-line help text the key is exactly the text before the first
      white-space character. */
  lemma KeyIsFirstWord(n: string)
    requires NoLineTerminator(n)
    ensures var k := CommandKey(n);
      |k| <= |n| && k == n[..|k|] && NoWhitespace(k) && (|k| == |n| || IsJsWhitespace(n[|k|]))
  {
    var i := FirstWhitespace(n);
    if i < |n| {
      var j := LineEnd(n, i + 1);
      assert n[..i] + n[j..] == n[..i];
    }
  }

  /** The loop over the command table: the position of the first help line
      whose key is the verb, if any. `verb` is `process.argv[2]`, absent
      when no command was given. */
  method FindCommand(table: seq<string>, verb: Option<string>) returns (r: Option<nat>)
    ensures r.Some? ==> r.value < |table| && verb == Some(CommandKey(table[r.value]))
    ensures r.Some? ==> forall j :: 0 <= j < r.value ==> verb != Some(CommandKey(table[j]))
    ensures r.None? ==> forall j :: 0 <= j < |table| ==> verb != Some(CommandKey(table[j]))
  {
    var i := 0;
    while i < |table|
      invariant 0 <= i <= |table|
      invariant forall j :: 0 <= j < i ==> verb != Some(CommandKey(table[j]))
    {
      if verb == Some(CommandKey(table[i])) {
        return Some(i);
      }
      i := i + 1;
    }
    return None;
  }
}
