/**
 * fileio/readline.go: one line of a configuration file, normalised.
 * `Readline` strips one trailing newline, trims white space, and reports
 * blank and `#` comment lines with count 0 and the end of input with -1;
 * `Genlines` keeps the lines with a positive count until the first -1.
 *
 * A line is a sequence of characters; the reader's `ReadString('\n')` is
 * given as its result, the text read and the error that came with it.
 */
module ConfigLines {

  /** The error ReadString returned with the text. */
  datatype ReadErr = NoErr | EOF | OtherErr

  /** Go's unicode.IsSpace: the Latin-1 spaces and the Unicode White_Space
      characters above them. */
  predicate IsSpace(c: char)
  {
    || c == '\t' || c == '\n' || c == '\U{000B}' || c == '\U{000C}' || c == '\r' || c == ' '
    || c == '\U{0085}' || c == '\U{00A0}' || c == '\U{1680}'
    || ('\U{2000}' <= c <= '\U{200A}')
    || c == '\U{2028}' || c == '\U{2029}' || c == '\U{202F}' || c == '\U{205F}' || c == '\U{3000}'
  }

  /** The number of leading white-space characters of s. */
  function Lead(s: string): (n: nat)
    ensures n <= |s|
    ensures forall i :: 0 <= i < n ==> IsSpace(s[i])
    ensures n < |s| ==> !IsSpace(s[n])
  {
    if s == [] || !IsSpace(s[0]) then 0 else 1 + Lead(s[1..])
  }

  /** The number of trailing white-space characters of s. */
  function Trail(s: string): (n: nat)
    ensures n <= |s|
    ensures forall i :: |s| - n <= i < |s| ==> IsSpace(s[i])
    ensures n < |s| ==> !IsSpace(s[|s| - 1 - n])
  {
    if s == [] || !IsSpace(s[|s| - 1]) then 0 else 1 + Trail(s[..|s| - 1])
  }

  /** strings.TrimSpace: s without its leading and trailing white space. */
  function TrimSpace(s: string): (r: string)
    ensures r == [] <==> forall i :: 0 <= i < |s| ==> IsSpace(s[i])
    ensures r != [] ==> !IsSpace(r[0]) && !IsSpace(r[|r| - 1])
    ensures r != [] ==> r == s[Lead(s)..|s| - Trail(s)]
  {
    var a := Lead(s);
    if a == |s| then [] else s[a..|s| - Trail(s)]
  }

  /** The text with at most one trailing newline removed. */
  function Chomp(b: string): (c: string)
    ensures b == c || b == c + "\n"
  {
    if b != [] && b[|b| - 1] == '\n' then b[..|b| - 1] else b
  }

  /** Readline: -1 for nothing read at the end of input, 0 for nothing read
      otherwise and for blank and comment lines, else the trimmed line and
      its length. */
  function Readline(b: string, err: ReadErr): (r: (string, int))
    ensures r.1 >= -1
    ensures r.1 <= 0 ==> r.0 == ""
  {
    if |b| == 0 then
      if err == EOF then ("", -1) else ("", 0)
    else
      var c := Chomp(b);
      if |c| == 0 then ("", 0)
      else
        var t := TrimSpace(c);
        if |t| == 0 || t[0] == '#' then ("", 0) else (t, |t|)
  }

  /** The end of input is reported exactly when nothing was read and the
      error is EOF; nothing read with any other error gives an empty line. */
  lemma ReadlineEnd(b: string, err: ReadErr)
    ensures Readline(b, err).1 == -1 <==> b == [] && err == EOF
    ensures b == [] && err != EOF ==> Readline(b, err) == ("", 0)
  {
  }

  /** Blank lines, lines holding only a newline, and lines whose first
      non-space character is '#' give count 0. */
  lemma {:induction false} ReadlineSkips(b: string, err: ReadErr)
    requires b != []
    requires (forall i :: 0 <= i < |b| ==> IsSpace(b[i])) || b[Lead(b)] == '#'
    ensures Readline(b, err) == ("", 0)
  {
    var c := Chomp(b);
    if c != [] {
      var t := TrimSpace(c);
      if t != [] {
        assert Lead(c) == Lead(b) by { LeadChomp(b); }
      }
    }
  }

  /** Removing a trailing newline leaves the leading white space alone when
      there is a non-space character. */
  lemma {:induction false} LeadChomp(b: string)
    requires b != [] && Lead(Chomp(b)) < |Chomp(b)|
    ensures Lead(Chomp(b)) == Lead(b)
  {
    var c := Chomp(b);
    var n := Lead(c);
    assert forall i :: 0 <= i < n ==> b[i] == c[i];
    assert b[n] == c[n];
    LeadUnique(b, n);
  }

  /** Lead is the first non-space position. */
  lemma {:induction false} LeadUnique(s: string, n: nat)
    requires n < |s| && !IsSpace(s[n]) && forall i :: 0 <= i < n ==> IsSpace(s[i])
    ensures Lead(s) == n
  {
    if n > 0 {
      LeadUnique(s[1..], n - 1);
    }
  }

  /** A line with a positive count is the trimmed text less one newline:
      non-empty, no white space at either end, not a comment; and every
      line that trims to such text has a positive count. */
  lemma ReadlineKeeps(b: string, err: ReadErr)
    ensures var r := Readline(b, err);
            r.1 > 0 <==> TrimSpace(Chomp(b)) != [] && TrimSpace(Chomp(b))[0] != '#'
    ensures var r := Readline(b, err);
            r.1 > 0 ==> r.1 == |r.0| && r.0 == TrimSpace(Chomp(b))
                        && !IsSpace(r.0[0]) && !IsSpace(r.0[|r.0| - 1]) && r.0[0] != '#'
  {
  }

  /** Only one trailing newline is removed before trimming: the line and
      the line with its newline read the same. */
  lemma ReadlineOneNewline(s: string, err: ReadErr)
    requires s == [] || s[|s| - 1] != '\n'
    ensures Chomp(s + "\n") == s
    ensures s != [] ==> Readline(s + "\n", err) == Readline(s, err)
  {
    assert (s + "\n")[..|s|] == s;
  }

  /** Genlines: the lines with a positive count, in order, up to the first
      end of input. */
  function Genlines(input: seq<(string, ReadErr)>): (lines: seq<string>)
    ensures |lines| <= |input|
  {
    if input == [] then []
    else
      var (b, n) := Readline(input[0].0, input[0].1);
      if n == -1 then []
      else if n == 0 then Genlines(input[1..])
      else [b] + Genlines(input[1..])
  }

  /** A read that reports the end of input: nothing read, and EOF. */
  predicate IsEnd(x: (string, ReadErr))
  {
    x.0 == [] && x.1 == EOF
  }

  /** The position of the first read that reports the end of input, or the
      number of reads when none does. */
  function FirstEnd(input: seq<(string, ReadErr)>): (k: nat)
    ensures k <= |input|
    ensures forall i :: 0 <= i < k ==> !IsEnd(input[i])
    ensures k < |input| ==> IsEnd(input[k])
  {
    if input == [] || IsEnd(input[0]) then 0
    else 1 + FirstEnd(input[1..])
  }

  /** The line a single read contributes: the trimmed line when its count
      is positive, nothing otherwise. */
  function Keep(x: (string, ReadErr)): (lines: seq<string>)
    ensures |lines| <= 1
  {
    var r := Readline(x.0, x.1);
    if r.1 > 0 then [r.0] else []
  }

  /** The lines of the input that have a positive count, in order. */
  function Kept(input: seq<(string, ReadErr)>): (lines: seq<string>)
    ensures |lines| <= |input|
  {
    if input == [] then [] else Kept(input[..|input| - 1]) + Keep(input[|input| - 1])
  }

  lemma {:induction false} KeptAppend(a: seq<(string, ReadErr)>, x: (string, ReadErr))
    ensures Kept(a + [x]) == Kept(a) + Keep(x)
  {
    assert (a + [x])[..|a|] == a;
  }

  lemma {:induction false} KeptPrepend(x: (string, ReadErr), a: seq<(string, ReadErr)>)
    ensures Kept([x] + a) == Keep(x) + Kept(a)
    decreases |a|
  {
    if a == [] {
      assert [x] + a == [] + [x];
      KeptAppend([], x);
    } else {
      var a' := a[..|a| - 1];
      var y := a[|a| - 1];
      assert [x] + a == ([x] + a') + [y];
      assert a == a' + [y];
      KeptAppend([x] + a', y);
      KeptPrepend(x, a');
      KeptAppend(a', y);
    }
  }

  /** One step of Genlines on a read that is not the end of input. */
  lemma GenlinesStep(input: seq<(string, ReadErr)>)
    requires input != [] && !IsEnd(input[0])
    ensures Genlines(input) == Keep(input[0]) + Genlines(input[1..])
  {
    ReadlineEnd(input[0].0, input[0].1);
  }

  lemma PrefixOfTail<T>(s: seq<T>, k: nat)
    requires 0 < |s| && k < |s|
    ensures s[..1 + k] == [s[0]] + s[1..][..k]
  {
  }

  /** Genlines emits exactly the kept lines of the input before the first
      end of input, in order; nothing after it is read. */
  lemma {:induction false} GenlinesUpToEnd(input: seq<(string, ReadErr)>)
    ensures Genlines(input) == Kept(input[..FirstEnd(input)])
  {
    if input == [] {
    } else if IsEnd(input[0]) {
      ReadlineEnd(input[0].0, input[0].1);
      assert input[..FirstEnd(input)] == [];
    } else {
      var rest := input[1..];
      GenlinesStep(input);
      GenlinesUpToEnd(rest);
      var k := FirstEnd(rest);
      assert FirstEnd(input) == 1 + k;
      PrefixOfTail(input, k);
      KeptPrepend(input[0], rest[..k]);
    }
  }

  /** A line Readline keeps: non-empty, no white space at either end, and
      not a comment. */
  ghost predicate Clean(l: string)
  {
    l != [] && l[0] != '#' && !IsSpace(l[0]) && !IsSpace(l[|l| - 1])
  }

  /** Every line Genlines emits is clean. */
  lemma {:induction false} GenlinesClean(input: seq<(string, ReadErr)>)
    ensures forall l :: l in Genlines(input) ==> Clean(l)
  {
    if input != [] {
      GenlinesClean(input[1..]);
      var r := Readline(input[0].0, input[0].1);
      ReadlineKeeps(input[0].0, input[0].1);
      if r.1 > 0 {
        assert Clean(r.0);
        assert Genlines(input) == [r.0] + Genlines(input[1..]);
      } else if r.1 == 0 {
        assert Genlines(input) == Genlines(input[1..]);
      }
    }
  }
}
