// Windows command lines: what rktio_process.c writes, and how Microsoft's C runtime reads it.
module CommandLines {
  // A C string, without its terminator.
  type CString = s: string | '\0' !in s

  // isspace in the C locale.
  predicate IsSpace(c: char) {
    c == ' ' || ('\t' <= c <= '\r')
  }

  lemma IsSpaceIs(c: char)
    ensures IsSpace(c) <==> c in [' ', '\t', '\n', '\U{0B}', '\U{0C}', '\r']
  {
  }

  function Slashes(n: nat): (r: CString)
    ensures |r| == n && forall k :: 0 <= k < n ==> r[k] == '\\'
  {
    seq(n, _ => '\\')
  }

  // ---- what cmdline_protect is to write

  // Some character makes quoting necessary.
  predicate Special(s: string) {
    s != "" && (IsSpace(s[0]) || s[0] == '\'' || s[0] == '"' || Special(s[1..]))
  }

  // The text between the outer quotes, n backslashes having just been written: an embedded quote is
  // written outside the quotes, and backslashes before any quote are doubled.
  function Body(s: CString, n: nat): (r: CString) {
    if s == "" then Slashes(n)
    else if s[0] == '"' then Slashes(n) + "\"\\\"\"" + Body(s[1..], 0)
    else if s[0] == '\\' then "\\" + Body(s[1..], n + 1)
    else [s[0]] + Body(s[1..], 0)
  }

  function Protect(s: CString): (r: CString) {
    if s == "" then "\"\"" else if Special(s) then "\"" + Body(s, 0) + "\"" else s
  }

  function ProtectAll(argv: seq<CString>): (r: seq<CString>)
    ensures |r| == |argv|
  {
    seq(|argv|, i requires 0 <= i < |argv| => Protect(argv[i]))
  }

  // The arguments with a space after each but the last.
  function Join(argv: seq<CString>): (r: CString)
    requires argv != []
  {
    argv[0] + Tail(argv[1..])
  }

  // A space before each argument.
  function Tail(argv: seq<CString>): (r: CString) {
    if argv == [] then "" else " " + argv[0] + Tail(argv[1..])
  }

  function CommandLine(argv: seq<CString>): CString
    requires argv != []
  {
    Join(ProtectAll(argv))
  }

  // ---- Microsoft's rules for splitting a command line

  // What a doubled quote inside a quoted part means: nothing special, a quote character, or a quote
  // character that also ends the quoted part. The documentation says Literal; C runtimes have done
  // each of these.
  datatype DoubledQuote = Delimiters | Literal | LiteralAndEnd

  predicate Blank(c: char) { c == ' ' || c == '\t' }

  // How many backslashes s starts with.
  function Run(s: string): (n: nat)
    ensures n <= |s| && (n < |s| ==> s[n] != '\\') && forall k :: 0 <= k < n ==> s[k] == '\\'
  {
    if s == "" || s[0] != '\\' then 0 else 1 + Run(s[1..])
  }

  datatype Piece = Piece(text: string, rest: string)

  // The argument at the start of s, and what follows it. Backslashes before a quote come in pairs,
  // each standing for one; a quote after an odd number of them is a character, after an even number
  // a delimiter. Other backslashes stand for themselves.
  function Argument(s: string, quoted: bool, rule: DoubledQuote): (p: Piece)
    ensures |p.rest| <= |s|
    ensures s != "" && (quoted || !Blank(s[0])) ==> |p.rest| < |s|
    decreases |s|
  {
    var n := Run(s);
    if n < |s| && s[n] == '"' then
      if n % 2 == 1 then Prepend(Slashes(n / 2) + "\"", Argument(s[n + 1..], quoted, rule))
      else if quoted && n + 1 < |s| && s[n + 1] == '"' && rule != Delimiters
      then Prepend(Slashes(n / 2) + "\"", Argument(s[n + 2..], rule == Literal, rule))
      else Prepend(Slashes(n / 2), Argument(s[n + 1..], !quoted, rule))
    else if n > 0 then Prepend(s[..n], Argument(s[n..], quoted, rule))
    else if s == "" || (Blank(s[0]) && !quoted) then Piece("", s)
    else Prepend([s[0]], Argument(s[1..], quoted, rule))
  }

  function Prepend(text: string, p: Piece): Piece { Piece(text + p.text, p.rest) }

  function SkipBlanks(s: string): (r: string)
    ensures |r| <= |s| && (r != "" ==> !Blank(r[0]))
  {
    if s == "" || !Blank(s[0]) then s else SkipBlanks(s[1..])
  }

  function Split(s: string, rule: DoubledQuote): seq<string>
    decreases |s|
  {
    var t := SkipBlanks(s);
    if t == "" then []
    else
      var p := Argument(t, false, rule);
      [p.text] + Split(p.rest, rule)
  }

  // The program name has no escapes: quotes delimit, and a blank outside them ends it.
  function AfterName(s: string, quoted: bool): (rest: string)
    ensures |rest| <= |s|
  {
    if s == "" || (Blank(s[0]) && !quoted) then s
    else AfterName(s[1..], if s[0] == '"' then !quoted else quoted)
  }

  // The arguments after the program name that a program started with this argv sees.
  function Received(name: CString, args: seq<CString>, rule: DoubledQuote): seq<string> {
    Split(AfterName(CommandLine([name] + args), false), rule)
  }

  // ---- every protected argument is read back

  // What may follow an argument on a command line.
  predicate Ends(rest: string) { rest == "" || Blank(rest[0]) }

  lemma {:induction false} RunOf(n: nat, s: string)
    requires s == "" || s[0] != '\\'
    ensures Run(Slashes(n) + s) == n
  {
    if n > 0 {
      assert (Slashes(n) + s)[1..] == Slashes(n - 1) + s;
      RunOf(n - 1, s);
    } else {
      assert Slashes(0) + s == s;
    }
  }

  // Backslashes that no quote follows.
  lemma PlainSlashes(n: nat, s: string, quoted: bool, rule: DoubledQuote)
    requires s == "" || (s[0] != '\\' && s[0] != '"')
    ensures Argument(Slashes(n) + s, quoted, rule) == Prepend(Slashes(n), Argument(s, quoted, rule))
  {
    hide Slashes, Prepend;
    RunOf(n, s);
    var t := Slashes(n) + s;
    assert t[n..] == s && t[..n] == Slashes(n);
    if n == 0 {
      assert t == s;
      PrependNothing(Slashes(n), Argument(s, quoted, rule));
    } else if n < |t| {
      assert t[n] == s[0];
    }
  }

  lemma PrependNothing(text: string, p: Piece)
    requires text == ""
    ensures Prepend(text, p) == p
  {
  }

  // An even number of backslashes before a quote that delimits.
  lemma DoubledSlashes(n: nat, s: string, quoted: bool, rule: DoubledQuote)
    requires quoted ==> s == "" || s[0] != '"'
    ensures Argument(Slashes(2 * n) + ("\"" + s), quoted, rule) == Prepend(Slashes(n), Argument(s, !quoted, rule))
  {
    hide Slashes, Prepend;
    var m := 2 * n;
    Halves(n, m);
    var t := Slashes(m) + ("\"" + s);
    RunOf(m, "\"" + s);
    assert t[m] == '"' && t[m + 1..] == s;
    if s != "" {
      assert t[m + 1] == s[0];
    }
  }

  lemma Halves(n: nat, m: nat)
    requires m == 2 * n
    ensures m % 2 == 0 && m / 2 == n
  {
  }

  // An odd number before one that does not.
  lemma OddSlashes(n: nat, s: string, quoted: bool, rule: DoubledQuote)
    ensures Argument(Slashes(2 * n + 1) + ("\"" + s), quoted, rule) == Prepend(Slashes(n) + "\"", Argument(s, quoted, rule))
  {
    hide Slashes, Prepend;
    var m := 2 * n + 1;
    var t := Slashes(m) + ("\"" + s);
    RunOf(m, "\"" + s);
    assert t[m] == '"' && t[m + 1..] == s && m % 2 == 1 && m / 2 == n;
  }

  // Two quotes in a quoted part, after backslashes in pairs, by each of the rules.
  lemma DoubledQuoteIs(n: nat, s: string)
    ensures var t := Slashes(2 * n) + ("\"\"" + s);
      && Argument(t, true, Literal) == Prepend(Slashes(n) + "\"", Argument(s, true, Literal))
      && Argument(t, true, LiteralAndEnd) == Prepend(Slashes(n) + "\"", Argument(s, false, LiteralAndEnd))
      && Argument(t, true, Delimiters) == Prepend(Slashes(n), Argument("\"" + s, false, Delimiters))
  {
    hide Slashes, Prepend;
    var m := 2 * n;
    Halves(n, m);
    var t := Slashes(m) + ("\"\"" + s);
    RunOf(m, "\"\"" + s);
    assert t[m] == '"' && t[m + 1] == '"' && t[m + 2..] == s && t[m + 1..] == "\"" + s;
  }

  lemma EscapedQuote(s: string, quoted: bool, rule: DoubledQuote)
    ensures Argument("\\\"" + s, quoted, rule) == Prepend("\"", Argument(s, quoted, rule))
  {
    hide Argument;
    OddSlashes(0, s, quoted, rule);
    assert Slashes(1) + ("\"" + s) == "\\\"" + s && Slashes(0) + "\"" == "\"";
  }

  lemma OpeningQuote(s: string, rule: DoubledQuote)
    ensures Argument("\"" + s, false, rule) == Argument(s, true, rule)
  {
    DoubledSlashes(0, s, false, rule);
    assert Slashes(0) + ("\"" + s) == "\"" + s;
  }

  lemma OneChar(c: char, s: string, quoted: bool, rule: DoubledQuote)
    requires c != '\\' && c != '"' && (quoted || !Blank(c))
    ensures Argument([c] + s, quoted, rule) == Prepend([c], Argument(s, quoted, rule))
  {
    assert ([c] + s)[1..] == s;
  }

  // Reading what Body writes for each kind of character, when `more` reads as `s`.
  lemma ReadQuote(n: nat, more: string, s: string, rest: string, rule: DoubledQuote)
    requires Argument(more, true, rule) == Piece(s, rest)
    ensures Argument(Slashes(2 * n) + ("\"\\\"\"" + more), true, rule) == Piece(Slashes(n) + ("\"" + s), rest)
  {
    hide Argument, Slashes;
    assert "\"\\\"\"" + more == "\"" + ("\\\"" + ("\"" + more));
    DoubledSlashes(n, "\\\"" + ("\"" + more), true, rule);
    EscapedQuote("\"" + more, false, rule);
    OpeningQuote(more, rule);
  }

  lemma ReadChar(n: nat, c: char, more: string, s: string, rest: string, rule: DoubledQuote)
    requires c != '"' && c != '\\' && Argument(more, true, rule) == Piece(s, rest)
    ensures Argument(Slashes(n) + ([c] + more), true, rule) == Piece(Slashes(n) + ([c] + s), rest)
  {
    hide Argument, Slashes;
    PlainSlashes(n, [c] + more, true, rule);
    OneChar(c, more, true, rule);
  }

  lemma ReadEnd(n: nat, rest: string, rule: DoubledQuote)
    requires Ends(rest)
    ensures Argument(Slashes(2 * n) + ("\"" + rest), true, rule) == Piece(Slashes(n), rest)
  {
    hide Argument, Slashes;
    DoubledSlashes(n, rest, true, rule);
    ArgumentEnds(rest, rule);
  }

  // What Body writes for each kind of character, the backslashes before it included.
  lemma BodyEnd(n: nat, tail: string)
    ensures Slashes(n) + Body("", n) + tail == Slashes(2 * n) + tail
  {
  }

  lemma BodyQuote(s: CString, n: nat, tail: string)
    requires s != "" && s[0] == '"'
    ensures Slashes(n) + Body(s, n) + tail == Slashes(2 * n) + ("\"\\\"\"" + (Slashes(0) + Body(s[1..], 0) + tail))
  {
    hide Slashes, Body;
    TwiceSlashes(n);
    NoSlashes(Body(s[1..], 0));
    QuoteSteps(s, n);
    Regroup(Slashes(n), "\"\\\"\"", Body(s[1..], 0), tail);
  }

  lemma QuoteSteps(s: CString, n: nat)
    requires s != "" && s[0] == '"'
    ensures Body(s, n) == Slashes(n) + "\"\\\"\"" + Body(s[1..], 0)
  {
    hide Slashes;
  }

  lemma Regroup(x: string, q: string, b: string, tail: string)
    ensures x + (x + q + b) + tail == (x + x) + (q + (b + tail))
  {
    assert x + (x + q + b) == (x + x) + (q + b);
  }

  lemma BodySlash(s: CString, n: nat, tail: string)
    requires s != "" && s[0] == '\\'
    ensures Slashes(n) + Body(s, n) + tail == Slashes(n + 1) + Body(s[1..], n + 1) + tail
  {
    MoreSlashes(n);
    assert Slashes(n) + ("\\" + Body(s[1..], n + 1)) == Slashes(n) + "\\" + Body(s[1..], n + 1);
  }

  lemma BodyChar(s: CString, n: nat, tail: string)
    requires s != "" && s[0] != '"' && s[0] != '\\'
    ensures Slashes(n) + Body(s, n) + tail == Slashes(n) + ([s[0]] + (Slashes(0) + Body(s[1..], 0) + tail))
  {
    NoSlashes(Body(s[1..], 0));
  }

  lemma Rejoin(s: CString, n: nat)
    requires s != ""
    ensures [s[0]] + (Slashes(0) + s[1..]) == s
    ensures s[0] == '\\' ==> Slashes(n + 1) + s[1..] == Slashes(n) + s
  {
    NoSlashes(s[1..]);
    MoreSlashes(n);
  }

  lemma {:induction false} BodyRead(s: CString, n: nat, rest: string, rule: DoubledQuote)
    requires Ends(rest)
    ensures Argument(Slashes(n) + Body(s, n) + ("\"" + rest), true, rule) == Piece(Slashes(n) + s, rest)
    decreases |s|
  {
    hide Argument, Slashes, Ends, Body;
    var tail := "\"" + rest;
    if s == "" {
      ReadEnd(n, rest, rule);
      BodyEnd(n, tail);
      assert Slashes(n) + s == Slashes(n);
    } else {
      Rejoin(s, n);
      if s[0] == '"' {
        BodyRead(s[1..], 0, rest, rule);
        BodyQuote(s, n, tail);
        ReadQuote(n, Slashes(0) + Body(s[1..], 0) + tail, Slashes(0) + s[1..], rest, rule);
      } else if s[0] == '\\' {
        BodyRead(s[1..], n + 1, rest, rule);
        BodySlash(s, n, tail);
      } else {
        BodyRead(s[1..], 0, rest, rule);
        BodyChar(s, n, tail);
        ReadChar(n, s[0], Slashes(0) + Body(s[1..], 0) + tail, Slashes(0) + s[1..], rest, rule);
      }
    }
  }

  lemma NoSlashes(s: string)
    ensures Slashes(0) + s == s && Slashes(0) == ""
  {
  }

  lemma TwiceSlashes(n: nat)
    ensures Slashes(n) + Slashes(n) == Slashes(2 * n)
  {
  }

  lemma MoreSlashes(n: nat)
    ensures Slashes(n) + "\\" == Slashes(n + 1)
  {
  }

  lemma ArgumentEnds(rest: string, rule: DoubledQuote)
    requires Ends(rest)
    ensures Argument(rest, false, rule) == Piece("", rest)
  {
  }

  // Text without anything special is read as it stands.
  lemma {:induction false} PlainRead(s: string, rest: string, rule: DoubledQuote)
    requires !Special(s) && Ends(rest)
    ensures Argument(s + rest, false, rule) == Piece(s, rest)
    decreases |s|
  {
    hide Argument, Slashes;
    if s == "" {
      assert s + rest == rest;
      ArgumentEnds(rest, rule);
    } else {
      var n := Run(s);
      var u := s[n..];
      PlainSuffix(s, n);
      RunSplits(s, rest);
      PlainSlashes(n, u + rest, false, rule);
      if u == "" {
        assert u + rest == rest;
        ArgumentEnds(rest, rule);
      } else {
        PlainSuffix(s, n + 1);
        assert s[n + 1..] == u[1..];
        PlainRead(u[1..], rest, rule);
        PlainChar(u, rest, rule);
      }
    }
  }

  lemma PlainChar(u: string, rest: string, rule: DoubledQuote)
    requires u != "" && u[0] != '"' && u[0] != '\\' && !Blank(u[0])
    requires Argument(u[1..] + rest, false, rule) == Piece(u[1..], rest)
    ensures Argument(u + rest, false, rule) == Piece(u, rest)
  {
    hide Argument;
    assert u + rest == [u[0]] + (u[1..] + rest) && u == [u[0]] + u[1..];
    OneChar(u[0], u[1..] + rest, false, rule);
  }

  lemma RunSplits(s: string, rest: string)
    ensures s + rest == Slashes(Run(s)) + (s[Run(s)..] + rest) && s == Slashes(Run(s)) + s[Run(s)..]
  {
    var n := Run(s);
    assert s[..n] == Slashes(n) && s == s[..n] + s[n..];
  }

  lemma {:induction false} PlainSuffix(s: string, n: nat)
    requires !Special(s) && n <= |s|
    ensures !Special(s[n..]) && (n < |s| ==> s[n] != '"' && !Blank(s[n]))
  {
    if n > 0 {
      PlainSuffix(s[1..], n - 1);
      assert s[1..][n - 1..] == s[n..];
    } else {
      assert s[0..] == s;
    }
  }

  lemma ProtectQuotes(s: CString)
    requires s == "" || Special(s)
    ensures Protect(s) == "\"" + Body(s, 0) + "\""
  {
  }

  // Every argument survives: what stands for it is read as it, and ends where it ends.
  lemma ProtectRead(s: CString, rest: string, rule: DoubledQuote)
    requires Ends(rest)
    ensures Argument(Protect(s) + rest, false, rule) == Piece(s, rest)
  {
    hide Argument, Slashes, Body;
    if s != "" && !Special(s) {
      PlainRead(s, rest, rule);
    } else {
      var b := Body(s, 0);
      BodyRead(s, 0, rest, rule);
      NoSlashes(s);
      assert Slashes(0) + b + ("\"" + rest) == b + ("\"" + rest);
      ProtectQuotes(s);
      assert Protect(s) + rest == "\"" + (b + ("\"" + rest));
      OpeningQuote(b + ("\"" + rest), rule);
    }
  }

  lemma ProtectStarts(s: CString)
    ensures Protect(s) != "" && !Blank(Protect(s)[0])
  {
  }

  lemma {:induction false} SplitTail(args: seq<CString>, rule: DoubledQuote)
    ensures Split(Tail(ProtectAll(args)), rule) == args
    decreases |args|
  {
    hide Argument, Protect;
    if args != [] {
      var t := Tail(ProtectAll(args));
      var more := Tail(ProtectAll(args[1..]));
      assert ProtectAll(args)[1..] == ProtectAll(args[1..]);
      ProtectStarts(args[0]);
      var s := Protect(args[0]) + more;
      assert t == " " + s && t[1..] == s;
      assert SkipBlanks(s) == s;
      ProtectRead(args[0], more, rule);
      SplitTail(args[1..], rule);
      assert [args[0]] + args[1..] == args;
    }
  }

  // ---- the program name

  // Reading the quoted name as a program name: every quote in it turns quoting off or on, so blanks
  // must stand where it is on, and it must be on at the end.
  predicate NameSafe(name: string, quoted: bool) {
    if name == "" then quoted
    else if name[0] == '"' then NameSafe(name[1..], !quoted)
    else (Blank(name[0]) ==> quoted) && NameSafe(name[1..], quoted)
  }

  // A name without a quote character, as every Windows path, is safe.
  lemma {:induction false} PathsAreSafe(name: string)
    requires '"' !in name
    ensures NameSafe(name, true)
  {
    if name != "" {
      assert name[0] in name && forall c :: c in name[1..] ==> c in name;
      PathsAreSafe(name[1..]);
    }
  }

  lemma {:induction false} SlashesInName(n: nat, s: string, quoted: bool)
    ensures AfterName(Slashes(n) + s, quoted) == AfterName(s, quoted)
  {
    if n > 0 {
      assert (Slashes(n) + s)[1..] == Slashes(n - 1) + s;
      SlashesInName(n - 1, s, quoted);
    } else {
      assert Slashes(0) + s == s;
    }
  }

  lemma QuoteInName(s: string, quoted: bool)
    ensures AfterName("\"" + s, quoted) == AfterName(s, !quoted)
  {
    assert ("\"" + s)[1..] == s;
  }

  lemma CharInName(c: char, s: string, quoted: bool)
    requires c != '"' && (Blank(c) ==> quoted)
    ensures AfterName([c] + s, quoted) == AfterName(s, quoted)
  {
    assert ([c] + s)[1..] == s;
  }

  // Where the scan for the end of the name stops when the name is not safe: at a blank in the name,
  // or not before the end of the line.
  datatype Stop = AtEnd | Early(left: string) | Beyond

  ghost function StopIn(name: CString, quoted: bool, n: nat): Stop {
    if name == "" then (if quoted then AtEnd else Beyond)
    else if name[0] == '"' then StopIn(name[1..], !quoted, 0)
    else if Blank(name[0]) && !quoted then Early(Body(name, n) + "\"")
    else StopIn(name[1..], quoted, if name[0] == '\\' then n + 1 else 0)
  }

  lemma {:induction false} StopSafe(name: CString, quoted: bool, n: nat)
    ensures StopIn(name, quoted, n).AtEnd? <==> NameSafe(name, quoted)
  {
    if name != "" {
      if name[0] == '"' {
        StopSafe(name[1..], !quoted, 0);
      } else if !(Blank(name[0]) && !quoted) {
        StopSafe(name[1..], quoted, if name[0] == '\\' then n + 1 else 0);
      }
    }
  }

  function Stopped(stop: Stop, rest: string): string {
    match stop
    case AtEnd => AfterName(rest, false)
    case Early(left) => left + rest
    case Beyond => AfterName(rest, true)
  }

  lemma {:induction false} BodyScan(name: CString, n: nat, quoted: bool, rest: string)
    ensures AfterName(Body(name, n) + "\"" + rest, quoted) == Stopped(StopIn(name, quoted, n), rest)
    decreases |name|
  {
    var t := Body(name, n) + "\"" + rest;
    if name == "" {
      assert t == Slashes(n) + ("\"" + rest);
      SlashesInName(n, "\"" + rest, quoted);
      QuoteInName(rest, quoted);
    } else if name[0] == '"' {
      var more := Body(name[1..], 0) + "\"" + rest;
      assert t == Slashes(n) + ("\"" + ("\\" + ("\"" + ("\"" + more))));
      SlashesInName(n, "\"" + ("\\" + ("\"" + ("\"" + more))), quoted);
      QuoteInName("\\" + ("\"" + ("\"" + more)), quoted);
      CharInName('\\', "\"" + ("\"" + more), !quoted);
      QuoteInName("\"" + more, !quoted);
      QuoteInName(more, quoted);
      BodyScan(name[1..], 0, !quoted, rest);
    } else if Blank(name[0]) && !quoted {
      assert t == Body(name, n) + ("\"" + rest) && t[0] == name[0];
    } else {
      var n' := if name[0] == '\\' then n + 1 else 0;
      var more := Body(name[1..], n') + "\"" + rest;
      assert t == [name[0]] + more;
      CharInName(name[0], more, quoted);
      BodyScan(name[1..], n', quoted, rest);
    }
  }

  lemma {:induction false} PlainScan(name: string, rest: string)
    requires !Special(name)
    ensures AfterName(name + rest, false) == AfterName(rest, false)
    ensures NameSafe(name, true)
  {
    if name == "" {
      assert name + rest == rest;
    } else {
      assert name + rest == [name[0]] + (name[1..] + rest);
      CharInName(name[0], name[1..] + rest, false);
      PlainScan(name[1..], rest);
    }
  }

  lemma NameScan(name: CString, rest: string)
    ensures AfterName(Protect(name) + rest, false) == Stopped(StopIn(name, true, 0), rest)
  {
    StopSafe(name, true, 0);
    if name != "" && !Special(name) {
      PlainScan(name, rest);
    } else {
      var b := if name == "" then "" else Body(name, 0);
      assert Protect(name) + rest == "\"" + (b + "\"" + rest);
      QuoteInName(b + "\"" + rest, false);
      assert Body(name, 0) == b;
      BodyScan(name, 0, true, rest);
    }
  }

  lemma CommandLineSplits(name: CString, args: seq<CString>)
    ensures CommandLine([name] + args) == Protect(name) + Tail(ProtectAll(args))
  {
    assert ProtectAll([name] + args)[1..] == ProtectAll(args);
  }

  lemma ReceivedIs(name: CString, args: seq<CString>, rule: DoubledQuote)
    ensures Received(name, args, rule) == Split(Stopped(StopIn(name, true, 0), Tail(ProtectAll(args))), rule)
  {
    CommandLineSplits(name, args);
    NameScan(name, Tail(ProtectAll(args)));
  }

  // A started program receives its arguments unchanged, whatever they are, exactly when the name is
  // safe; and then under each of the runtimes' rules.
  lemma ArgumentsReceived(name: CString, rule: DoubledQuote)
    ensures (forall args: seq<CString> :: Received(name, args, rule) == args) <==> NameSafe(name, true)
  {
    hide Protect, Argument;
    StopSafe(name, true, 0);
    if NameSafe(name, true) {
      forall args: seq<CString> ensures Received(name, args, rule) == args {
        ReceivedIs(name, args, rule);
        SplitTail(args, rule);
      }
    } else if StopIn(name, true, 0).Early? {
      ReceivedIs(name, [], rule);
      var left := StopIn(name, true, 0).left;
      EarlyStop(name, true, 0);
      assert left + Tail(ProtectAll([])) == left;
      QuoteIsRead(left, rule);
      assert Received(name, [], rule) != [];
    } else {
      ReceivedIs(name, ["x"], rule);
      AllSwallowed("x");
      assert ProtectAll(["x"]) == [Protect("x")];
      assert Received(name, ["x"], rule) == [];
    }
  }

  lemma {:induction false} EarlyStop(name: CString, quoted: bool, n: nat)
    requires StopIn(name, quoted, n).Early?
    ensures '"' in StopIn(name, quoted, n).left
  {
    if name[0] == '"' {
      EarlyStop(name[1..], !quoted, 0);
    } else if !(Blank(name[0]) && !quoted) {
      EarlyStop(name[1..], quoted, if name[0] == '\\' then n + 1 else 0);
    }
  }

  lemma {:induction false} QuoteIsRead(s: string, rule: DoubledQuote)
    requires '"' in s
    ensures Split(s, rule) != []
  {
    hide Argument;
    QuoteKept(s);
  }

  lemma {:induction false} QuoteKept(s: string)
    requires '"' in s
    ensures SkipBlanks(s) != ""
  {
    if Blank(s[0]) { QuoteKept(s[1..]); }
  }

  // After a name that leaves quoting on, a plain argument is taken for a part of the name.
  lemma AllSwallowed(s: string)
    requires s == "x"
    ensures AfterName(" " + Protect(s) + "", true) == ""
  {
    assert Special(s) <==> Special(s[1..]);
    assert s[1..] == "" && !Special("");
    assert Protect(s) == "x";
    var line := " " + Protect(s) + "";
    assert line == " x" && line[1..] == "x" && line[1..][1..] == "";
  }

  // For instance, a name with one quote hides every argument.
  lemma UnsafeName()
    ensures Received("a\"", ["x"], Literal) != ["x"]
  {
    ArgumentsReceived("a\"", Literal);
    ReceivedIs("a\"", ["x"], Literal);
    AllSwallowed("x");
    assert ProtectAll(["x"]) == [Protect("x")];
    assert "a\""[1..] == "\"" && "\""[1..] == "";
  }

  // ---- the code

  // How much longer than s its body is.
  ghost function Extra(s: string, n: nat): nat {
    if s == "" then n
    else if s[0] == '"' then n + 3 + Extra(s[1..], 0)
    else if s[0] == '\\' then Extra(s[1..], n + 1)
    else Extra(s[1..], 0)
  }

  lemma {:induction false} BodyLength(s: CString, n: nat)
    ensures |Body(s, n)| == |s| + Extra(s, n)
    decreases |s|
  {
    if s != "" {
      BodyLength(s[1..], if s[0] == '\\' then n + 1 else 0);
    }
  }

  // The first pass of cmdline_protect: the room a body needs is at most what it counts.
  method Measure(s: CString) returns (hasSpace: bool, hasQuote: nat, wasSlash: nat)
    ensures hasSpace || hasQuote > 0 <==> Special(s)
    ensures |Body(s, 0)| <= |s| + 3 * hasQuote + wasSlash
  {
    hasSpace, hasQuote, wasSlash := false, 0, 0;
    var ds := 0;
    while ds < |s|
      invariant ds <= |s|
      invariant hasSpace || hasQuote > 0 || Special(s[ds..]) <==> Special(s)
      invariant 3 * hasQuote + Extra(s[ds..], wasSlash) >= Extra(s, 0)
    {
      assert s[ds..][0] == s[ds] && s[ds..][1..] == s[ds + 1..];
      if IsSpace(s[ds]) || s[ds] == '\'' {
        hasSpace, wasSlash := true, 0;
      } else if s[ds] == '"' {
        hasQuote, wasSlash := hasQuote + (1 + 2 * wasSlash), 0;
      } else if s[ds] == '\\' {
        wasSlash := wasSlash + 1;
      } else {
        wasSlash := 0;
      }
      ds := ds + 1;
    }
    BodyLength(s, 0);
  }

  method WriteSlashes(naya: array<char>, p: nat, wroteSlash: nat) returns (p': nat)
    requires p + wroteSlash <= naya.Length
    modifies naya
    ensures p' == p + wroteSlash && naya[..p'] == old(naya[..p]) + Slashes(wroteSlash)
  {
    var left: nat := wroteSlash;
    p' := p;
    while left > 0
      invariant left <= wroteSlash && p' == p + wroteSlash - left <= naya.Length
      invariant naya[..p'] == old(naya[..p]) + Slashes(wroteSlash - left)
    {
      naya[p'] := '\\';
      p', left := p' + 1, left - 1;
    }
  }

  method WriteQuote(naya: array<char>, p: nat, wroteSlash: nat) returns (p': nat)
    requires p + wroteSlash + 4 <= naya.Length
    modifies naya
    ensures p' == p + wroteSlash + 4 && naya[..p'] == old(naya[..p]) + (Slashes(wroteSlash) + "\"\\\"\"")
  {
    hide Slashes;
    p' := WriteSlashes(naya, p, wroteSlash);
    ghost var done := naya[..p'];
    naya[p'], naya[p' + 1], naya[p' + 2], naya[p' + 3] := '"', '\\', '"', '"';
    assert naya[..p' + 4] == done + "\"\\\"\"";
    p' := p' + 4;
  }

  // What is written so far and what Body has yet to write make up the quoted body.
  ghost predicate Writing(naya: array<char>, p: nat, s: CString, i: nat, n: nat)
    reads naya
  {
    && i <= |s| && p <= naya.Length && |Body(s, 0)| + 3 <= naya.Length
    && naya[..p] + Body(s[i..], n) == "\"" + Body(s, 0)
  }

  // One turn of the second pass.
  method WriteChar(naya: array<char>, p: nat, s: CString, i: nat, wroteSlash: nat) returns (p': nat, wroteSlash': nat)
    requires i < |s| && Writing(naya, p, s, i, wroteSlash)
    modifies naya
    ensures Writing(naya, p', s, i + 1, wroteSlash')
  {
    hide Body, Slashes;
    BodySteps(s[i..], wroteSlash);
    assert s[i..][1..] == s[i + 1..];
    ghost var done, piece, rest := naya[..p], Written(s[i], wroteSlash), Body(s[i + 1..], if s[i] == '\\' then wroteSlash + 1 else 0);
    assert done + (piece + rest) == done + piece + rest;
    assert p + |piece| + |rest| == 1 + |Body(s, 0)|;
    if s[i] == '"' {
      p' := WriteQuote(naya, p, wroteSlash);
      wroteSlash' := 0;
    } else if s[i] == '\\' {
      naya[p] := '\\';
      p', wroteSlash' := p + 1, wroteSlash + 1;
    } else {
      naya[p] := s[i];
      p', wroteSlash' := p + 1, 0;
    }
    assert naya[..p'] == done + piece;
  }

  // What Body writes for one character.
  ghost function Written(c: char, n: nat): string {
    if c == '"' then Slashes(n) + "\"\\\"\"" else [c]
  }

  lemma BodySteps(s: CString, n: nat)
    requires s != ""
    ensures Body(s, n) ==
            Written(s[0], n) + Body(s[1..], if s[0] == '\\' then n + 1 else 0)
  {
  }

  // cmdline_protect: no write is out of bounds, and the result is the protected argument.
  method CmdlineProtect(s: CString) returns (naya: array<char>)
    ensures fresh(naya) && naya.Length > |Protect(s)| && naya[..|Protect(s)|] == Protect(s) && naya[|Protect(s)|] == '\0'
  {
    hide Body, Writing, IsSpace;
    if |s| == 0 {
      naya := Strdup("\"\"");
      return;
    }
    var hasSpace, hasQuote, wasSlash := Measure(s);
    if hasSpace || hasQuote > 0 {
      ProtectQuotes(s);
      naya := new char[|s| + 3 + 3 * hasQuote + wasSlash];
      naya[0] := '"';
      var i, p: nat, wroteSlash: nat := 0, 1, 0;
      StartWriting(naya, s);
      while i < |s|
        invariant i <= |s| && Writing(naya, p, s, i, wroteSlash)
      {
        p, wroteSlash := WriteChar(naya, p, s, i, wroteSlash);
        i := i + 1;
      }
      DoneWriting(naya, p, s, wroteSlash);
      p := WriteSlashes(naya, p, wroteSlash);
      naya[p] := '"';
      naya[p + 1] := '\0';
      assert naya[..p + 1] == Protect(s);
      return;
    }
    naya := Strdup(s);
  }

  lemma StartWriting(naya: array<char>, s: CString)
    requires |Body(s, 0)| + 3 <= naya.Length && naya[0] == '"'
    ensures Writing(naya, 1, s, 0, 0)
  {
    assert s[0..] == s && naya[..1] == "\"";
  }

  lemma DoneWriting(naya: array<char>, p: nat, s: CString, n: nat)
    requires Writing(naya, p, s, |s|, n)
    ensures naya[..p] + Slashes(n) == "\"" + Body(s, 0) && p + n + 2 <= naya.Length
  {
    assert s[|s|..] == "";
    assert |naya[..p] + Slashes(n)| == p + n;
  }

  method Strdup(s: CString) returns (naya: array<char>)
    ensures fresh(naya) && naya.Length == |s| + 1 && naya[..|s|] == s && naya[|s|] == '\0'
  {
    naya := new char[|s| + 1](i requires 0 <= i <= |s| => if i < |s| then s[i] else '\0');
  }

  // The arguments with a space after each.
  ghost function Spaced(argv: seq<CString>): string {
    if argv == [] then "" else argv[0] + " " + Spaced(argv[1..])
  }

  lemma {:induction false} SpacedIsJoin(argv: seq<CString>)
    requires argv != []
    ensures Spaced(argv) == Join(argv) + " "
  {
    if argv[1..] != [] {
      SpacedIsJoin(argv[1..]);
    }
  }

  lemma SpacedStep(argv: seq<CString>, i: nat)
    requires i < |argv|
    ensures Spaced(argv[i..]) == argv[i] + " " + Spaced(argv[i + 1..])
  {
    assert argv[i..][1..] == argv[i + 1..];
  }

  lemma SpacedEnd(argv: seq<CString>)
    ensures Spaced(argv[|argv|..]) == ""
  {
  }

  lemma Associates(a: string, b: string, c: string)
    ensures a + (b + c) == (a + b) + c
  {
  }

  // memcpy of an argument, and the space after it.
  method WriteArgument(cmdline: array<char>, len: nat, arg: CString)
    requires len + |arg| < cmdline.Length
    modifies cmdline
    ensures cmdline[..len + |arg| + 1] == old(cmdline[..len]) + (arg + " ")
  {
    forall k | 0 <= k < |arg| { cmdline[len + k] := arg[k]; }
    cmdline[len + |arg|] := ' ';
  }

  // The first loop of do_spawnv: the room all arguments need.
  method TotalLength(argv: seq<CString>) returns (len: nat)
    ensures len == |Spaced(argv)|
  {
    len := 0;
    var i := 0;
    while i < |argv|
      invariant i <= |argv| && len + |Spaced(argv[i..])| == |Spaced(argv)|
    {
      assert argv[i..][1..] == argv[i + 1..];
      len := len + |argv[i]| + 1;
      i := i + 1;
    }
  }

  // do_spawnv, lines 1215-1229: the second loop fills exactly the room the first one counted, and
  // the last space becomes the terminator.
  method JoinArguments(argv: seq<CString>) returns (cmdline: array<char>)
    requires argv != []
    ensures cmdline[..] == Join(argv) + "\0"
  {
    hide Spaced, Join;
    var len := TotalLength(argv);
    assert argv[0..] == argv;
    SpacedEnd(argv);
    cmdline := new char[len];
    len := 0;
    var i := 0;
    while i < |argv|
      invariant i <= |argv| && 0 <= len && len + |Spaced(argv[i..])| == |Spaced(argv)| == cmdline.Length
      invariant cmdline[..len] + Spaced(argv[i..]) == Spaced(argv)
    {
      SpacedStep(argv, i);
      ghost var done := cmdline[..len];
      Associates(done, argv[i] + " ", Spaced(argv[i + 1..]));
      WriteArgument(cmdline, len, argv[i]);
      len, i := len + |argv[i]| + 1, i + 1;
    }
    SpacedIsJoin(argv);
    assert cmdline[..len] == Join(argv) + " ";
    len := len - 1;
    cmdline[len] := '\0';
    assert cmdline[..len] == Join(argv);
  }

  // What a program is started with when the command line is not given as it is (lines 1481-1487).
  method SpawnCommandLine(argv: seq<CString>) returns (cmdline: array<char>)
    requires argv != []
    ensures cmdline[..] == CommandLine(argv) + "\0"
  {
    var newArgv: seq<CString> := [];
    var i := 0;
    while i < |argv|
      invariant i <= |argv| && newArgv == ProtectAll(argv[..i])
    {
      var naya := CmdlineProtect(argv[i]);
      newArgv := newArgv + [naya[..Strlen(naya, Protect(argv[i]))]];
      assert argv[..i + 1] == argv[..i] + [argv[i]];
      i := i + 1;
    }
    assert argv[..|argv|] == argv;
    cmdline := JoinArguments(newArgv);
  }

  // strlen of a string that holds s.
  function Strlen(a: array<char>, ghost s: CString): (n: nat)
    requires a.Length > |s| && a[..|s|] == s && a[|s|] == '\0'
    reads a
    ensures n == |s|
  {
    StrlenFrom(a, s, 0)
  }

  function StrlenFrom(a: array<char>, ghost s: CString, i: nat): (n: nat)
    requires a.Length > |s| && a[..|s|] == s && a[|s|] == '\0' && i <= |s|
    reads a
    ensures n == |s|
    decreases |s| - i
  {
    assert i < |s| ==> a[i] == s[i] && s[i] in s;
    if a[i] == '\0' then i else StrlenFrom(a, s, i + 1)
  }
}
