/**
 Rendering an argument list as one Windows command line
 (src/running_process/command_render.py).

 `List2Cmdline` is the renderer, with the source's nested loops. `Split` is an
 independent reader of command lines that follows Microsoft's published rules
 ("Parsing C command-line arguments"), applied alike to every argument. The
 main result is that reading back a rendered line gives the original list.
 */
module CommandLine {
  import Strings

  // ---------------------------------------------------------------- reading

  predicate IsBlank(c: char) {
    c == ' ' || c == '\t'
  }

  function Backslashes(n: nat): (r: string)
    ensures |r| == n
    ensures forall i :: 0 <= i < n ==> r[i] == '\\'
  {
    seq(n, _ => '\\')
  }

  function LeadingBackslashes(s: string): (n: nat)
    ensures n <= |s|
  {
    if s != "" && s[0] == '\\' then 1 + LeadingBackslashes(s[1..]) else 0
  }

  /** What the next characters of an argument stand for: the text they add, how
      many there are, and whether the quoted part goes on after them. */
  datatype Token = Token(text: string, length: nat, inQuotes: bool)

  /** Backslashes are literal unless a quote follows; 2n of them before a quote
      stand for n and the quote is a delimiter, 2n+1 stand for n and the quote is
      literal. A pair of quotes inside a quoted part is one literal quote. */
  function NextToken(s: string, inQuotes: bool): (t: Token)
    requires s != ""
    ensures 0 < t.length <= |s|
  {
    var n := LeadingBackslashes(s);
    if n > 0 then
      if n < |s| && s[n] == '"' then
        if n % 2 == 1 then Token(Backslashes(n / 2) + "\"", n + 1, inQuotes)
        else Token(Backslashes(n / 2), n, inQuotes)
      else
        Token(Backslashes(n), n, inQuotes)
    else if s[0] == '"' then
      if inQuotes && |s| > 1 && s[1] == '"' then Token("\"", 2, true)
      else Token("", 1, !inQuotes)
    else
      Token([s[0]], 1, inQuotes)
  }

  /** Reads the rest of one argument: its text, and what follows it. */
  function ScanArgument(s: string, inQuotes: bool): (r: (string, string))
    ensures |r.1| <= |s|
    ensures s != "" && (inQuotes || !IsBlank(s[0])) ==> |r.1| < |s|
    decreases |s|
  {
    if s == "" || (!inQuotes && IsBlank(s[0])) then
      ("", s)
    else
      var token := NextToken(s, inQuotes);
      var (tail, rest) := ScanArgument(s[token.length..], token.inQuotes);
      (token.text + tail, rest)
  }

  function Split(line: string): seq<string>
    decreases |line|
  {
    if line == "" then []
    else if IsBlank(line[0]) then Split(line[1..])
    else
      var (argument, rest) := ScanArgument(line, false);
      [argument] + Split(rest)
  }

  // -------------------------------------------------------------- rendering

  predicate IsPlain(c: char) {
    !IsBlank(c) && c != '"' && c != '\\'
  }

  /** The inside of a quoted argument, from the point where `pending` backslashes
      have been read but not written. */
  function Quoted(a: string, pending: nat): string
    decreases |a|
  {
    if a == "" then Backslashes(2 * pending)
    else if a[0] == '\\' then Quoted(a[1..], pending + 1)
    else if a[0] == '"' then Backslashes(2 * pending + 1) + "\"" + Quoted(a[1..], 0)
    else Backslashes(pending) + [a[0]] + Quoted(a[1..], 0)
  }

  function RenderedArgument(a: string): string {
    if a != "" && forall i :: 0 <= i < |a| ==> IsPlain(a[i]) then a
    else "\"" + Quoted(a, 0) + "\""
  }

  function Rendered(args: seq<string>): string {
    if args == [] then ""
    else if |args| == 1 then RenderedArgument(args[0])
    else RenderedArgument(args[0]) + " " + Rendered(args[1..])
  }

  method RenderArgument(argument: string) returns (text: string)
    ensures text == RenderedArgument(argument)
  {
    if argument == "" {
      return "\"\"";
    }
    if forall i :: 0 <= i < |argument| ==> IsPlain(argument[i]) {
      return argument;
    }
    var rendered := "\"";
    var backslashes: nat := 0;
    for k := 0 to |argument|
      invariant rendered + Quoted(argument[k..], backslashes) == "\"" + Quoted(argument, 0)
    {
      var character := argument[k];
      assert argument[k..][1..] == argument[k + 1..];
      ghost var before, pending := rendered, backslashes;
      if character == '\\' {
        backslashes := backslashes + 1;
      } else if character == '"' {
        rendered := rendered + Backslashes(backslashes * 2 + 1) + "\"";
        backslashes := 0;
        Strings.Regroup(before, Backslashes(2 * pending + 1), "\"", Quoted(argument[k + 1..], 0));
      } else {
        if backslashes > 0 {
          rendered := rendered + Backslashes(backslashes);
          backslashes := 0;
        }
        rendered := rendered + [character];
        assert rendered == before + Backslashes(pending) + [character];
        Strings.Regroup(before, Backslashes(pending), [character], Quoted(argument[k + 1..], 0));
      }
    }
    if backslashes > 0 {
      rendered := rendered + Backslashes(backslashes * 2);
    }
    text := rendered + "\"";
  }

  /** The renderer. A reader that follows Microsoft's rules gets `command` back. */
  method List2Cmdline(command: seq<string>) returns (line: string)
    ensures line == Rendered(command)
    ensures Split(line) == command
  {
    var parts: seq<string> := [];
    for k := 0 to |command|
      invariant |parts| == k
      invariant forall i :: 0 <= i < k ==> parts[i] == RenderedArgument(command[i])
    {
      var part := RenderArgument(command[k]);
      parts := parts + [part];
    }
    line := "";
    for k := |parts| downto 0
      invariant line == Rendered(command[k..])
    {
      assert command[k..][1..] == command[k + 1..];
      line := if k == |parts| - 1 then parts[k] else parts[k] + " " + line;
    }
    assert command[0..] == command;
    SplitRendered(command);
  }

  // ------------------------------------------------------------- round trip

  lemma {:induction false} CountBackslashes(n: nat, tail: string)
    requires tail == "" || tail[0] != '\\'
    ensures LeadingBackslashes(Backslashes(n) + tail) == n
  {
    if n == 0 {
      assert Backslashes(0) + tail == tail;
    } else {
      assert (Backslashes(n) + tail)[1..] == Backslashes(n - 1) + tail;
      CountBackslashes(n - 1, tail);
    }
  }

  /** One token of a quoted part. */
  lemma ScanToken(s: string, token: Token)
    requires s != "" && token == NextToken(s, true)
    ensures ScanArgument(s, true)
         == (token.text + ScanArgument(s[token.length..], token.inQuotes).0,
             ScanArgument(s[token.length..], token.inQuotes).1)
  {
  }

  lemma AfterQuote(n: nat, tail: string)
    ensures var s := Backslashes(2 * n + 1) + ("\"" + tail);
            |s| == 2 * n + 2 + |tail| && s[2 * n + 1] == '"' && s[2 * n + 2..] == tail
  {
  }

  lemma ReadToken(s: string, inQuotes: bool, token: Token)
    requires s != "" && (inQuotes || !IsBlank(s[0])) && token == NextToken(s, inQuotes)
    ensures ScanArgument(s, inQuotes)
         == (token.text + ScanArgument(s[token.length..], token.inQuotes).0,
             ScanArgument(s[token.length..], token.inQuotes).1)
  {
  }

  /** The published rules for backslashes, inside and outside quotes: before a quote every
      pair of them is one, and an odd one makes the quote literal ... */
  lemma ReadsEscapedQuote(n: nat, tail: string, inQuotes: bool)
    ensures ScanArgument(Backslashes(2 * n + 1) + ("\"" + tail), inQuotes)
         == (Backslashes(n) + "\"" + ScanArgument(tail, inQuotes).0, ScanArgument(tail, inQuotes).1)
  {
    var s := Backslashes(2 * n + 1) + ("\"" + tail);
    CountBackslashes(2 * n + 1, "\"" + tail);
    AfterQuote(n, tail);
    ReadToken(s, inQuotes, Token(Backslashes(n) + "\"", 2 * n + 2, inQuotes));
  }

  lemma ReadsPairsBeforeQuote(n: nat, tail: string, inQuotes: bool)
    requires n > 0
    ensures var after := ScanArgument("\"" + tail, inQuotes);
            ScanArgument(Backslashes(2 * n) + ("\"" + tail), inQuotes) == (Backslashes(n) + after.0, after.1)
  {
    var s := Backslashes(2 * n) + ("\"" + tail);
    CountBackslashes(2 * n, "\"" + tail);
    assert s[2 * n..] == "\"" + tail;
    ReadToken(s, inQuotes, Token(Backslashes(n), 2 * n, inQuotes));
  }

  /** ... and elsewhere they are literal. */
  lemma ReadsBackslashes(n: nat, tail: string, inQuotes: bool)
    requires n > 0 && (tail == "" || (tail[0] != '\\' && tail[0] != '"'))
    ensures var after := ScanArgument(tail, inQuotes);
            ScanArgument(Backslashes(n) + tail, inQuotes) == (Backslashes(n) + after.0, after.1)
  {
    var s := Backslashes(n) + tail;
    CountBackslashes(n, tail);
    assert s[n..] == tail;
    ReadToken(s, inQuotes, Token(Backslashes(n), n, inQuotes));
  }

  /** The published rules for quotes and blanks: a quote opens or closes a quoted part, a pair
      of them inside one is a literal quote, and a blank ends the argument only outside. */
  lemma ReadsQuotes(c: char, tail: string)
    ensures ScanArgument("\"" + tail, false) == ScanArgument(tail, true)
    ensures tail == "" || tail[0] != '"' ==> ScanArgument("\"" + tail, true) == ScanArgument(tail, false)
    ensures ScanArgument("\"\"" + tail, true) == ("\"" + ScanArgument(tail, true).0, ScanArgument(tail, true).1)
    ensures IsBlank(c) ==> ScanArgument([c] + tail, false) == ("", [c] + tail)
    ensures IsBlank(c) ==> ScanArgument([c] + tail, true) == ([c] + ScanArgument(tail, true).0, ScanArgument(tail, true).1)
  {
    assert ("\"" + tail)[1..] == tail && ("\"\"" + tail)[2..] == tail && ([c] + tail)[1..] == tail;
    ReadToken("\"" + tail, false, Token("", 1, true));
    assert "" + ScanArgument(tail, true).0 == ScanArgument(tail, true).0;
    if tail == "" || tail[0] != '"' {
      ReadToken("\"" + tail, true, Token("", 1, false));
      assert "" + ScanArgument(tail, false).0 == ScanArgument(tail, false).0;
    }
    ReadToken("\"\"" + tail, true, Token("\"", 2, true));
    if IsBlank(c) {
      ReadToken([c] + tail, true, Token([c], 1, true));
    }
  }

  /** A run of backslashes before a character that is not a quote is literal. */
  lemma ScanLiteralRun(n: nat, tail: string)
    requires tail != "" && tail[0] != '\\' && tail[0] != '"'
    ensures ScanArgument(Backslashes(n) + tail, true)
         == (Backslashes(n) + ScanArgument(tail, true).0, ScanArgument(tail, true).1)
  {
    var s := Backslashes(n) + tail;
    if n == 0 {
      assert s == tail;
      assert Backslashes(0) + ScanArgument(tail, true).0 == ScanArgument(tail, true).0;
    } else {
      CountBackslashes(n, tail);
      assert s[n..] == tail;
      ScanToken(s, Token(Backslashes(n), n, true));
    }
  }

  /** 2n+1 backslashes and a quote read as n backslashes and a literal quote. */
  lemma ScanEscapedQuote(n: nat, tail: string)
    ensures ScanArgument(Backslashes(2 * n + 1) + "\"" + tail, true)
         == (Backslashes(n) + "\"" + ScanArgument(tail, true).0, ScanArgument(tail, true).1)
  {
    var s := Backslashes(2 * n + 1) + "\"" + tail;
    assert s == Backslashes(2 * n + 1) + ("\"" + tail);
    CountBackslashes(2 * n + 1, "\"" + tail);
    assert s[2 * n + 2..] == tail;
    ScanToken(s, Token(Backslashes(n) + "\"", 2 * n + 2, true));
  }

  /** 2n backslashes and a closing quote read as n backslashes and end the argument. */
  lemma ScanClosing(n: nat, rest: string)
    requires rest == "" || IsBlank(rest[0])
    ensures ScanArgument(Backslashes(2 * n) + "\"" + rest, true) == (Backslashes(n), rest)
  {
    var closing := "\"" + rest;
    var s := Backslashes(2 * n) + "\"" + rest;
    assert s == Backslashes(2 * n) + closing;
    assert closing[1..] == rest;
    ScanToken(closing, Token("", 1, false));
    assert ScanArgument(rest, false) == ("", rest);
    assert "" + "" == "";
    assert ScanArgument(closing, true) == ("", rest);
    if n == 0 {
      assert s == closing;
    } else {
      CountBackslashes(2 * n, closing);
      assert s[2 * n..] == closing;
      ScanToken(s, Token(Backslashes(n), 2 * n, true));
      assert Backslashes(n) + "" == Backslashes(n);
    }
  }

  /** Backslashes and an ordinary character read as themselves. */
  lemma ScanLiteral(n: nat, c: char, tail: string)
    requires c != '\\' && c != '"'
    ensures ScanArgument(Backslashes(n) + [c] + tail, true)
         == (Backslashes(n) + [c] + ScanArgument(tail, true).0, ScanArgument(tail, true).1)
  {
    ScanLiteralRun(n, [c] + tail);
    ScanOrdinary(c, tail);
    Strings.Regroup(Backslashes(n), [c], tail, "");
    Strings.Regroup(Backslashes(n), [c], ScanArgument(tail, true).0, "");
  }

  lemma ScanOrdinary(c: char, tail: string)
    requires c != '\\' && c != '"'
    ensures ScanArgument([c] + tail, true)
         == ([c] + ScanArgument(tail, true).0, ScanArgument(tail, true).1)
  {
    assert ([c] + tail)[1..] == tail;
    ScanToken([c] + tail, Token([c], 1, true));
  }

  lemma OpenQuote(body: string)
    ensures ScanArgument("\"" + body, false) == ScanArgument(body, true)
  {
    assert ("\"" + body)[1..] == body;
    assert "" + ScanArgument(body, true).0 == ScanArgument(body, true).0;
  }

  /** A quote after some backslashes, then more that reads back. */
  lemma ScanQuotedQuote(a: string, pending: nat, rest: string, inner: string)
    requires ScanArgument(inner + "\"" + rest, true) == (a, rest)
    ensures ScanArgument(Backslashes(2 * pending + 1) + "\"" + inner + "\"" + rest, true)
         == (Backslashes(pending) + "\"" + a, rest)
  {
    Strings.Regroup(Backslashes(2 * pending + 1) + "\"", inner, "\"", rest);
    ScanEscapedQuote(pending, inner + "\"" + rest);
  }

  lemma ScanQuotedOrdinary(c: char, a: string, pending: nat, rest: string, inner: string)
    requires c != '\\' && c != '"' && ScanArgument(inner + "\"" + rest, true) == (a, rest)
    ensures ScanArgument(Backslashes(pending) + [c] + inner + "\"" + rest, true) == (Backslashes(pending) + [c] + a, rest)
  {
    Strings.Regroup(Backslashes(pending) + [c], inner, "\"", rest);
    ScanLiteral(pending, c, inner + "\"" + rest);
  }

  /** How the text of a quoted argument begins, by its first character. */
  lemma QuotedBegins(a: string, pending: nat)
    requires a != ""
    ensures a[0] == '\\' ==> Quoted(a, pending) == Quoted(a[1..], pending + 1)
    ensures a[0] == '\\' ==> Backslashes(pending) + a == Backslashes(pending + 1) + a[1..]
    ensures a[0] == '"' ==> Quoted(a, pending) == Backslashes(2 * pending + 1) + "\"" + Quoted(a[1..], 0)
    ensures a[0] == '"' ==> Backslashes(pending) + a == Backslashes(pending) + "\"" + a[1..]
    ensures a[0] != '\\' && a[0] != '"' ==> Quoted(a, pending) == Backslashes(pending) + [a[0]] + Quoted(a[1..], 0)
    ensures a[0] != '\\' && a[0] != '"' ==> Backslashes(pending) + a == Backslashes(pending) + [a[0]] + a[1..]
  {
    assert a == [a[0]] + a[1..];
  }

  lemma NoBackslashes(a: string)
    ensures Backslashes(0) + a == a
  {
  }

  /** The inside of a quoted argument, closed and followed by a separator, reads
      back as the argument. */
  lemma {:induction false} ScanQuoted(a: string, pending: nat, rest: string)
    requires rest == "" || IsBlank(rest[0])
    ensures ScanArgument(Quoted(a, pending) + "\"" + rest, true) == (Backslashes(pending) + a, rest)
    decreases |a|
  {
    if a == "" {
      ScanClosing(pending, rest);
      assert Backslashes(pending) + a == Backslashes(pending);
    } else {
      var more, after := Quoted(a[1..], 0), a[1..];
      QuotedBegins(a, pending);
      if a[0] == '\\' {
        ScanQuoted(after, pending + 1, rest);
      } else {
        ScanQuoted(after, 0, rest);
        NoBackslashes(after);
        if a[0] == '"' {
          ScanQuotedQuote(after, pending, rest, more);
        } else {
          ScanQuotedOrdinary(a[0], after, pending, rest, more);
        }
      }
    }
  }

  lemma {:induction false} ScanPlain(a: string, rest: string)
    requires forall i :: 0 <= i < |a| ==> IsPlain(a[i])
    requires rest == "" || IsBlank(rest[0])
    ensures ScanArgument(a + rest, false) == (a, rest)
    decreases |a|
  {
    if a == "" {
      assert a + rest == rest;
    } else {
      ScanPlain(a[1..], rest);
      assert (a + rest)[1..] == a[1..] + rest;
      assert [a[0]] + a[1..] == a;
    }
  }

  lemma ScanQuotedArgument(a: string, rest: string)
    requires rest == "" || IsBlank(rest[0])
    ensures ScanArgument("\"" + Quoted(a, 0) + "\"" + rest, false) == (a, rest)
  {
    ScanQuoted(a, 0, rest);
    assert Backslashes(0) + a == a;
    OpenQuote(Quoted(a, 0) + "\"" + rest);
    Strings.Regroup("\"", Quoted(a, 0), "\"", rest);
  }

  /** Reading one rendered argument recovers it and stops at the separator. */
  lemma ScanRenderedArgument(a: string, rest: string)
    requires rest == "" || IsBlank(rest[0])
    ensures RenderedArgument(a) != "" && !IsBlank(RenderedArgument(a)[0])
    ensures ScanArgument(RenderedArgument(a) + rest, false) == (a, rest)
  {
    if a != "" && forall i :: 0 <= i < |a| ==> IsPlain(a[i]) {
      ScanPlain(a, rest);
    } else {
      ScanQuotedArgument(a, rest);
    }
  }

  /** The first argument of a line that starts with a rendered one. */
  lemma SplitFirst(a: string, rest: string)
    requires rest == "" || IsBlank(rest[0])
    ensures Split(RenderedArgument(a) + rest) == [a] + Split(rest)
  {
    ScanRenderedArgument(a, rest);
    var line := RenderedArgument(a) + rest;
    assert line != "" && line[0] == RenderedArgument(a)[0];
  }

  /** Splitting a rendered line gives back exactly the arguments. */
  lemma {:induction false} SplitRendered(args: seq<string>)
    ensures Split(Rendered(args)) == args
  {
    if |args| == 1 {
      SplitFirst(args[0], "");
      assert RenderedArgument(args[0]) + "" == RenderedArgument(args[0]);
      assert [args[0]] + [] == args;
    } else if args != [] {
      var rest := " " + Rendered(args[1..]);
      SplitFirst(args[0], rest);
      Strings.Regroup(RenderedArgument(args[0]), " ", Rendered(args[1..]), "");
      assert rest[1..] == Rendered(args[1..]);
      SplitRendered(args[1..]);
    }
  }

  /** An argument stands as it is exactly if it has a character and none of them is a blank,
      a quote or a backslash; otherwise it stands in quotes. */
  lemma QuotedExactlyWhenNeeded(a: string)
    ensures RenderedArgument(a) == a <==>
              a != "" && forall i :: 0 <= i < |a| ==> a[i] != ' ' && a[i] != '\t' && a[i] != '"' && a[i] != '\\'
    ensures RenderedArgument(a) != a ==>
              |RenderedArgument(a)| >= |a| + 2 && RenderedArgument(a)[0] == '"'
              && RenderedArgument(a)[|RenderedArgument(a)| - 1] == '"'
  {
    QuotedIsNoShorter(a, 0);
  }

  lemma {:induction false} QuotedIsNoShorter(a: string, pending: nat)
    ensures |Quoted(a, pending)| >= |a| + pending
    decreases |a|
  {
    if a != "" {
      QuotedIsNoShorter(a[1..], if a[0] == '\\' then pending + 1 else 0);
    }
  }

  /** Arguments are joined by one space. */
  lemma {:induction false} JoinedBySpaces(args: seq<string>, last: string)
    ensures Rendered([]) == "" && Rendered([last]) == RenderedArgument(last)
    ensures args != [] ==> Rendered(args + [last]) == Rendered(args) + " " + RenderedArgument(last)
    decreases |args|
  {
    if |args| == 1 {
      assert (args + [last])[1..] == [last];
    } else if args != [] {
      JoinedBySpaces(args[1..], last);
      assert (args + [last])[1..] == args[1..] + [last];
      Strings.Regroup(RenderedArgument(args[0]), " ", Rendered(args[1..]), " " + RenderedArgument(last));
      Strings.Regroup(RenderedArgument(args[0]) + " ", Rendered(args[1..]), " ", RenderedArgument(last));
    }
  }

  /** Different argument lists never render to the same line. */
  lemma RenderingIsInjective(a: seq<string>, b: seq<string>)
    requires Rendered(a) == Rendered(b)
    ensures a == b
  {
    SplitRendered(a);
    SplitRendered(b);
  }
}
