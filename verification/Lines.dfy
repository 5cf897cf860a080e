/** The first line of a byte stream. */
module Lines {
  /** The length of the first line with its newline, or zero when no line is complete. */
  function FirstLine(s: string): (n: nat)
    ensures n <= |s|
    ensures n == 0 <==> '\n' !in s
    ensures n > 0 ==> s[n - 1] == '\n' && '\n' !in s[..n - 1]
  {
    if s == "" then 0
    else if s[0] == '\n' then 1
    else
      var n := FirstLine(s[1..]);
      assert n > 0 ==> s[..n] == [s[0]] + s[1..][..n - 1];
      if n == 0 then 0 else n + 1
  }

  lemma FirstLineOf(line: string, rest: string)
    requires line != "" && line[|line| - 1] == '\n' && '\n' !in line[..|line| - 1]
    ensures FirstLine(line + rest) == |line|
  {
    var s := line + rest;
    assert s[|line| - 1] == '\n';
  }
}
