/** Shell quoting, and the argument lists that a POSIX shell reads back from the quoted command lines. */
module ShellQuote {
  import opened Text

  // ---- The program ----

  /** shellQuoteArg and shellQuote. */
  function QuoteArg(s: string): string { "'" + ReplaceAll(s, "'", "'\\''") + "'" }

  function QuoteAll(args: seq<string>): seq<string> {
    if args == [] then [] else [QuoteArg(args[0])] + QuoteAll(args[1..])
  }

  method QuoteParts(cmdParts: seq<string>) returns (quoted: array<string>)
    ensures fresh(quoted) && quoted[..] == QuoteAll(cmdParts)
  {
    quoted := new string[|cmdParts|];
    for i := 0 to |cmdParts|
      invariant quoted[..i] + QuoteAll(cmdParts[i..]) == QuoteAll(cmdParts)
    {
      quoted[i] := QuoteArg(cmdParts[i]);
      assert cmdParts[i..][1..] == cmdParts[i + 1..];
      assert quoted[..i + 1] == quoted[..i] + [QuoteArg(cmdParts[i])];
    }
    assert quoted[..|cmdParts|] == quoted[..];
  }

  /** strings.EqualFold(username, "root"): no other character folds to r, o or t. */
  predicate IsRoot(username: string) {
    |username| == 4 && username[0] in {'r', 'R'} && username[1] in {'o', 'O'} && username[2] in {'o', 'O'}
    && username[3] in {'t', 'T'}
  }

  function ContainerLine(username: string, containerId: int, cmdParts: seq<string>): string {
    (if IsRoot(username) then "" else "sudo ")
    + ("pct exec " + (Dec(containerId) + (" -- " + Join(QuoteAll(cmdParts), " "))))
  }

  /** The command line that ExecuteContainerCommandDetailed runs. */
  method ContainerCommand(username: string, containerId: int, cmdParts: seq<string>) returns (line: string)
    ensures line == ContainerLine(username, containerId, cmdParts)
    ensures (forall i :: 0 <= i < |cmdParts| ==> NulFree(cmdParts[i])) ==>
              Tokenize(line) == Some((if ToLower(username) == "root" then [] else ["sudo"])
                                     + (["pct", "exec", Dec(containerId), "--"] + cmdParts))
  {
    hide Tokenize, NulFree, ToLower, QuoteAll, Join, Dec;
    if forall i :: 0 <= i < |cmdParts| ==> NulFree(cmdParts[i]) { ContainerArgv(username, containerId, cmdParts); }
    var quoted := QuoteParts(cmdParts);
    line := "pct exec " + (Dec(containerId) + (" -- " + Join(quoted[..], " ")));
    if !IsRoot(username) { line := "sudo " + line; }
    else { assert "" + line == line; }
  }

  datatype JumpHost = JumpHost(addr: string, user: string, keyfile: string, port: int)

  /** buildSSHArgsBase. */
  method BuildSshArgs(user: string, host: string, jump: JumpHost) returns (args: seq<string>)
    ensures args == SshArgs(user, host, jump)
    ensures args != [] && args[|args| - 1] == user + "@" + host
    ensures jump.addr == "" ==> |args| == 1
    ensures jump.addr != "" && jump.keyfile != "" && NulFreeJump(jump) ==>
              |args| == 3 && args[0] == "-o" && HasPrefix(args[1], "ProxyCommand=")
              && Tokenize(args[1][13..]) == Some(ProxyArgv(jump))
    ensures jump.addr != "" && jump.keyfile == "" && PlainJump(jump) ==>
              |args| == 3 && args[0] == "-J" && ReadJump(args[1]) == Some((jump.user, jump.addr, PortOf(jump)))
  {
    SshArgsAre(user, host, jump);
    hide Tokenize, ProxyArgv, NulFreeJump, PlainJump, ReadJump, PortOf;
    args := [];
    var target := user + "@" + host;
    if jump.addr != "" {
      if jump.keyfile != "" {
        var proxyCmd := "ssh -W %h:%p";
        proxyCmd := proxyCmd + (" -i " + QuoteArg(jump.keyfile));
        if jump.user != "" { proxyCmd := proxyCmd + (" -l " + QuoteArg(jump.user)); }
        if jump.port > 0 { proxyCmd := proxyCmd + (" -p " + Dec(jump.port)); }
        proxyCmd := proxyCmd + (" " + QuoteArg(jump.addr));
        args := args + ["-o", "ProxyCommand=" + proxyCmd];
      } else {
        var jumpSpec := jump.addr;
        if jump.user != "" { jumpSpec := jump.user + "@" + jump.addr; }
        if jump.port > 0 { jumpSpec := jumpSpec + ":" + Dec(jump.port); }
        args := args + ["-J", jumpSpec];
      }
    }
    args := args + [target];
  }

  function ProxyCommand(jump: JumpHost): string {
    var key := "ssh -W %h:%p" + (" -i " + QuoteArg(jump.keyfile));
    var login := if jump.user != "" then key + (" -l " + QuoteArg(jump.user)) else key;
    var port := if jump.port > 0 then login + (" -p " + Dec(jump.port)) else login;
    port + (" " + QuoteArg(jump.addr))
  }

  function JumpSpec(jump: JumpHost): string {
    var spec := if jump.user != "" then jump.user + "@" + jump.addr else jump.addr;
    if jump.port > 0 then spec + ":" + Dec(jump.port) else spec
  }

  function SshArgs(user: string, host: string, jump: JumpHost): seq<string> {
    (if jump.addr == "" then []
     else if jump.keyfile != "" then ["-o", "ProxyCommand=" + ProxyCommand(jump)]
     else ["-J", JumpSpec(jump)])
    + [user + "@" + host]
  }

  /** The argument list the proxy command is meant to be. */
  function ProxyArgv(jump: JumpHost): seq<string> {
    ["ssh", "-W", "%h:%p", "-i", jump.keyfile]
    + (if jump.user != "" then ["-l", jump.user] else [])
    + (if jump.port > 0 then ["-p", Dec(jump.port)] else [])
    + [jump.addr]
  }

  // ---- The jump specification ----

  function PortOf(jump: JumpHost): Option<int> { if jump.port > 0 then Some(jump.port) else None }

  /** Neither the user nor the address holds a character that separates the parts. */
  predicate PlainJump(jump: JumpHost) {
    && '@' !in jump.user && ':' !in jump.user && '@' !in jump.addr && ':' !in jump.addr && IsInt64(jump.port)
  }

  /** How ssh reads the argument of -J, as ssh(1) says: [user@]host[:port]. */
  function ReadJump(spec: string): Option<(string, string, Option<int>)> {
    var atParts := Split(spec, '@');
    var user, rest := if |atParts| == 2 then atParts[0] else "", atParts[|atParts| - 1];
    var colonParts := Split(rest, ':');
    if |atParts| > 2 || |colonParts| > 2 then None
    else if |colonParts| == 1 then Some((user, rest, None))
    else
      match ParseInt64(colonParts[1])
      case None => None
      case Some(port) => Some((user, colonParts[0], Some(port)))
  }

  /** ssh reads back the user, address and port that the specification was made of. */
  lemma JumpSpecReadsBack(jump: JumpHost)
    requires PlainJump(jump)
    ensures ReadJump(JumpSpec(jump)) == Some((jump.user, jump.addr, PortOf(jump)))
  {
    hide Split, Dec, ParseInt64;
    var tail := if jump.port > 0 then jump.addr + [':'] + Dec(jump.port) else jump.addr;
    ParseDec(jump.port);
    assert jump.port > 0 ==> ':' !in Dec(jump.port) && '@' !in Dec(jump.port);
    SplitWhole(jump.addr, ':');
    SplitWhole(tail, '@');
    if jump.port > 0 {
      SplitWhole(Dec(jump.port), ':');
      SplitConcat(jump.addr, ':', Dec(jump.port));
    }
    if jump.user != "" {
      SplitWhole(jump.user, '@');
      SplitConcat(jump.user, '@', tail);
      assert JumpSpec(jump) == jump.user + ['@'] + tail;
    } else {
      assert JumpSpec(jump) == tail;
    }
  }

  predicate NulFreeJump(jump: JumpHost) { NulFree(jump.keyfile) && NulFree(jump.user) && NulFree(jump.addr) }

  lemma SshArgsAre(user: string, host: string, jump: JumpHost)
    ensures var args := SshArgs(user, host, jump);
            && args != [] && args[|args| - 1] == user + "@" + host
            && |args| == (if jump.addr == "" then 1 else 3)
            && (jump.addr != "" && jump.keyfile != "" && NulFreeJump(jump) ==>
                  && args[0] == "-o" && HasPrefix(args[1], "ProxyCommand=")
                  && Tokenize(args[1][13..]) == Some(ProxyArgv(jump)))
            && (jump.addr != "" && jump.keyfile == "" && PlainJump(jump) ==>
                  args[0] == "-J" && ReadJump(args[1]) == Some((jump.user, jump.addr, PortOf(jump))))
  {
    hide Tokenize, ProxyCommand, ProxyArgv, ReadJump, JumpSpec;
    if PlainJump(jump) { JumpSpecReadsBack(jump); }
    if NulFreeJump(jump) { ProxyArgvRoundTrip(jump); }
    hide PlainJump, NulFreeJump;
    var option := "ProxyCommand=" + ProxyCommand(jump);
    assert |"ProxyCommand="| == 13 && option[13..] == ProxyCommand(jump);
  }

  // ---- The shell ----

  /** Token recognition of the POSIX shell command language, IEEE Std 1003.1-2017, for the quoting of
      sections 2.2.1 (backslash) and 2.2.2 (single quotes) and the rules of section 2.3. Anything else that is
      special when it is not quoted gives None, so a list of arguments also says that nothing special got through. */
  datatype Mode = Blank | InWord(word: string) | InQuotes(word: string)

  /** Characters that stand for themselves outside quotes, wherever they are in a word. */
  predicate Plain(c: char) {
    'a' <= c <= 'z' || 'A' <= c <= 'Z' || '0' <= c <= '9' || c in {'-', '_', '%', ':', '.', '/', ',', '+', '@'}
  }

  function WordOf(m: Mode): string { if m.Blank? then "" else m.word }

  function Tokens(s: string, m: Mode, done: seq<string>): Option<seq<string>> {
    if s == "" then
      match m
      case Blank => Some(done)
      case InWord(word) => Some(done + [word])
      case InQuotes(_) => None
    else if s[0] == '\0' then None
    else if m.InQuotes? then
      Tokens(s[1..], if s[0] == '\'' then InWord(m.word) else InQuotes(m.word + [s[0]]), done)
    else if s[0] == '\'' then Tokens(s[1..], InQuotes(WordOf(m)), done)
    else if s[0] == '\\' then
      if |s| == 1 || s[1] == '\0' then None
      else if s[1] == '\n' then Tokens(s[2..], m, done)
      else Tokens(s[2..], InWord(WordOf(m) + [s[1]]), done)
    else if s[0] == ' ' || s[0] == '\t' then
      Tokens(s[1..], Blank, if m.InWord? then done + [m.word] else done)
    else if Plain(s[0]) then Tokens(s[1..], InWord(WordOf(m) + [s[0]]), done)
    else None
  }

  function Tokenize(s: string): Option<seq<string>> { Tokens(s, Blank, []) }

  // ---- Quoting is undone ----

  predicate NulFree(s: string) { '\0' !in s }

  lemma {:induction false} QuotedBody(s: string, rest: string, word: string, done: seq<string>)
    ensures Tokens(ReplaceAll(s, "'", "'\\''") + ("'" + rest), InQuotes(word), done)
         == if NulFree(s) then Tokens(rest, InWord(word + s), done) else None
    decreases |s|
  {
    hide Tokens;
    var body, tail := ReplaceAll(s, "'", "'\\''"), "'" + rest;
    if s == "" {
      InQuotesStep('\'', rest, word, done);
      assert body + tail == tail && word + s == word;
    } else {
      var body' := ReplaceAll(s[1..], "'", "'\\''");
      QuotedBody(s[1..], rest, word + [s[0]], done);
      assert word + [s[0]] + s[1..] == word + s;
      assert NulFree(s) <==> s[0] != '\0' && NulFree(s[1..]);
      if s[0] == '\'' {
        assert HasPrefix(s, "'") && body == "'\\''" + body';
        EscapedQuote(body' + tail, word, done);
        assert body + tail == "'\\''" + (body' + tail);
      } else {
        assert !HasPrefix(s, "'") && body == [s[0]] + body';
        assert body + tail == [s[0]] + (body' + tail);
        InQuotesStep(s[0], body' + tail, word, done);
      }
    }
  }

  lemma InQuotesStep(c: char, rest: string, word: string, done: seq<string>)
    ensures Tokens([c] + rest, InQuotes(word), done)
         == if c == '\0' then None else Tokens(rest, if c == '\'' then InWord(word) else InQuotes(word + [c]), done)
  {
    assert ([c] + rest)[1..] == rest;
  }

  /** Closing the quotes, an escaped quote, opening them again: one quote in the word. */
  lemma EscapedQuote(rest: string, word: string, done: seq<string>)
    ensures Tokens("'\\''" + rest, InQuotes(word), done) == Tokens(rest, InQuotes(word + "'"), done)
  {
    var s := "'\\''" + rest;
    var s1, s2 := s[1..], s[3..];
    assert s1 == "\\''" + rest && s1[2..] == s2 && s2 == "'" + rest && s2[1..] == rest;
    assert Tokens(s, InQuotes(word), done) == Tokens(s1, InWord(word), done);
    assert Tokens(s1, InWord(word), done) == Tokens(s2, InWord(word + ['\'']), done);
    assert Tokens(s2, InWord(word + ['\'']), done) == Tokens(rest, InQuotes(word + ['\'']), done);
  }

  lemma QuotedArg(arg: string, rest: string, m: Mode, done: seq<string>)
    requires !m.InQuotes?
    ensures Tokens(QuoteArg(arg) + rest, m, done)
         == if NulFree(arg) then Tokens(rest, InWord(WordOf(m) + arg), done) else None
  {
    var s := QuoteArg(arg) + rest;
    assert s[1..] == ReplaceAll(arg, "'", "'\\''") + ("'" + rest);
    QuotedBody(arg, rest, WordOf(m), done);
  }

  /** The round trip: the shell reads the quoted and joined arguments back as exactly the original list,
      and it does so if and only if none of them holds a NUL. */
  lemma {:induction false} QuotedArgs(args: seq<string>, done: seq<string>)
    ensures Tokens(Join(QuoteAll(args), " "), Blank, done)
         == if forall i :: 0 <= i < |args| ==> NulFree(args[i]) then Some(done + args) else None
    decreases |args|
  {
    if args == [] {
      assert done + args == done;
    } else if |args| == 1 {
      QuotedArg(args[0], "", Blank, done);
      assert QuoteAll(args) == [QuoteArg(args[0])] && QuoteArg(args[0]) + "" == QuoteArg(args[0]);
      assert "" + args[0] == args[0] && args == [args[0]];
    } else {
      var rest := Join(QuoteAll(args[1..]), " ");
      assert QuoteAll(args)[1..] == QuoteAll(args[1..]) && |QuoteAll(args[1..])| >= 1;
      assert Join(QuoteAll(args), " ") == QuoteArg(args[0]) + (" " + rest);
      QuotedArg(args[0], " " + rest, Blank, done);
      assert "" + args[0] == args[0] && (" " + rest)[1..] == rest;
      QuotedArgs(args[1..], done + [args[0]]);
      assert done + [args[0]] + args[1..] == done + args;
      assert args == [args[0]] + args[1..];
    }
  }

  lemma RoundTrip(args: seq<string>)
    ensures Tokenize(Join(QuoteAll(args), " ")) == Some(args) <==> forall i :: 0 <= i < |args| ==> NulFree(args[i])
  {
    QuotedArgs(args, []);
    assert [] + args == args;
  }

  // ---- The whole command lines ----

  predicate AllPlain(s: string) { forall i :: 0 <= i < |s| ==> Plain(s[i]) }

  lemma {:induction false} PlainWord(word: string, rest: string, m: Mode, done: seq<string>)
    requires AllPlain(word) && word != "" && !m.InQuotes?
    ensures Tokens(word + rest, m, done) == Tokens(rest, InWord(WordOf(m) + word), done)
    decreases |word|
  {
    var s := word + rest;
    assert s[1..] == word[1..] + rest;
    if |word| == 1 {
      assert s[1..] == rest && [word[0]] == word;
    } else {
      PlainWord(word[1..], rest, InWord(WordOf(m) + [word[0]]), done);
      assert WordOf(m) + [word[0]] + word[1..] == WordOf(m) + word;
    }
  }

  /** A plain word and the blank after it are one argument. */
  lemma PlainThenBlank(word: string, rest: string, done: seq<string>)
    requires AllPlain(word) && word != ""
    ensures Tokens(word + (" " + rest), Blank, done) == Tokens(rest, Blank, done + [word])
  {
    PlainWord(word, " " + rest, Blank, done);
    assert "" + word == word && (" " + rest)[1..] == rest;
  }

  lemma QuotedThenBlank(arg: string, rest: string, done: seq<string>)
    requires NulFree(arg)
    ensures Tokens(QuoteArg(arg) + (" " + rest), Blank, done) == Tokens(rest, Blank, done + [arg])
  {
    QuotedArg(arg, " " + rest, Blank, done);
    assert "" + arg == arg && (" " + rest)[1..] == rest;
  }

  lemma DecPlain(n: int)
    ensures AllPlain(Dec(n)) && Dec(n) != ""
  {}

  lemma PctExec(containerId: int, cmdParts: seq<string>, done: seq<string>)
    requires forall i :: 0 <= i < |cmdParts| ==> NulFree(cmdParts[i])
    ensures Tokens("pct exec " + (Dec(containerId) + (" -- " + Join(QuoteAll(cmdParts), " "))), Blank, done)
         == Some(done + (["pct", "exec", Dec(containerId), "--"] + cmdParts))
  {
    hide Tokens, Join, QuoteAll, QuoteArg, Dec, NulFree;
    var id, args := Dec(containerId), Join(QuoteAll(cmdParts), " ");
    var fromId := id + (" " + ("--" + (" " + args)));
    assert "pct exec " + (id + (" -- " + args)) == "pct" + (" " + ("exec" + (" " + fromId)));
    PlainThenBlank("pct", "exec" + (" " + fromId), done);
    PlainThenBlank("exec", fromId, done + ["pct"]);
    DecPlain(containerId);
    PlainThenBlank(id, "--" + (" " + args), done + ["pct"] + ["exec"]);
    PlainThenBlank("--", args, done + ["pct"] + ["exec"] + [id]);
    QuotedArgs(cmdParts, done + ["pct"] + ["exec"] + [id] + ["--"]);
    assert done + ["pct"] + ["exec"] + [id] + ["--"] + cmdParts == done + (["pct", "exec", id, "--"] + cmdParts);
  }

  lemma SudoThenBlank(line: string)
    ensures "sudo " + line == "sudo" + (" " + line)
  {}

  /** The user is root in any mix of capital and small letters. */
  lemma RootIs(username: string)
    ensures IsRoot(username) <==> ToLower(username) == "root"
  {
    var lower := ToLower(username);
    assert |lower| == |username|;
    if |username| == 4 {
      assert lower[0] == LowerChar(username[0]) && lower[1] == LowerChar(username[1]);
      assert lower[2] == LowerChar(username[2]) && lower[3] == LowerChar(username[3]);
      assert lower == [lower[0], lower[1], lower[2], lower[3]] && "root" == ['r', 'o', 'o', 't'];
    }
  }

  /** The container command runs `pct exec <id> --` with exactly the given arguments, under sudo unless the user
      is root in any letter case. */
  lemma ContainerArgv(username: string, containerId: int, cmdParts: seq<string>)
    requires forall i :: 0 <= i < |cmdParts| ==> NulFree(cmdParts[i])
    ensures Tokenize(ContainerLine(username, containerId, cmdParts))
         == Some((if ToLower(username) == "root" then [] else ["sudo"])
                 + (["pct", "exec", Dec(containerId), "--"] + cmdParts))
  {
    RootIs(username);
    hide IsRoot, ToLower;
    LineArgv(containerId, cmdParts, IsRoot(username));
  }

  lemma LineArgv(containerId: int, cmdParts: seq<string>, root: bool)
    requires forall i :: 0 <= i < |cmdParts| ==> NulFree(cmdParts[i])
    ensures var line := "pct exec " + (Dec(containerId) + (" -- " + Join(QuoteAll(cmdParts), " ")));
            Tokenize((if root then "" else "sudo ") + line)
            == Some((if root then [] else ["sudo"]) + (["pct", "exec", Dec(containerId), "--"] + cmdParts))
  {
    hide Tokens, Join, QuoteAll, QuoteArg, Dec, NulFree;
    var line := "pct exec " + (Dec(containerId) + (" -- " + Join(QuoteAll(cmdParts), " ")));
    if root {
      assert "" + line == line;
      PctExec(containerId, cmdParts, []);
    } else {
      SudoThenBlank(line);
      PlainThenBlank("sudo", line, []);
      PctExec(containerId, cmdParts, [] + ["sudo"]);
      assert [] + ["sudo"] == ["sudo"];
    }
  }

  /** The proxy command reads back as the argument list it is meant to be. */
  lemma ProxyArgvRoundTrip(jump: JumpHost)
    requires NulFree(jump.keyfile) && NulFree(jump.user) && NulFree(jump.addr)
    ensures Tokenize(ProxyCommand(jump)) == Some(ProxyArgv(jump))
  {
    hide Tokens, QuoteArg, Dec;
    var addr := QuoteArg(jump.addr);
    var fromPort := if jump.port > 0 then "-p" + (" " + (Dec(jump.port) + (" " + addr))) else addr;
    var fromUser := if jump.user != "" then "-l" + (" " + (QuoteArg(jump.user) + (" " + fromPort))) else fromPort;
    var head := ["ssh", "-W", "%h:%p", "-i", jump.keyfile];
    var afterUser := head + if jump.user != "" then ["-l", jump.user] else [];
    ProxyPieces(jump);
    ProxyHead(jump.keyfile, fromUser);
    ProxyUser(jump, fromPort, head);
    ProxyPort(jump, afterUser);
  }

  /** The proxy command, grouped from the right. */
  lemma ProxyPieces(jump: JumpHost)
    ensures var addr := QuoteArg(jump.addr);
            var fromPort := if jump.port > 0 then "-p" + (" " + (Dec(jump.port) + (" " + addr))) else addr;
            var fromUser :=
              if jump.user != "" then "-l" + (" " + (QuoteArg(jump.user) + (" " + fromPort))) else fromPort;
            var fromKey := QuoteArg(jump.keyfile) + (" " + fromUser);
            ProxyCommand(jump) == "ssh" + (" " + ("-W" + (" " + ("%h:%p" + (" " + ("-i" + (" " + fromKey)))))))
  {
    hide QuoteArg, Dec;
    var addr, k := QuoteArg(jump.addr), QuoteArg(jump.keyfile);
    var fromPort := if jump.port > 0 then "-p" + (" " + (Dec(jump.port) + (" " + addr))) else addr;
    var fromUser := if jump.user != "" then "-l" + (" " + (QuoteArg(jump.user) + (" " + fromPort))) else fromPort;
    var key := "ssh -W %h:%p" + (" -i " + k);
    var login := if jump.user != "" then key + (" -l " + QuoteArg(jump.user)) else key;
    assert " -p " == " " + "-p" + " " && " -l " == " " + "-l" + " " && " -i " == " " + "-i" + " ";
    assert "ssh -W %h:%p" == "ssh" + (" " + ("-W" + (" " + "%h:%p")));
    Regroup(login, "-p", Dec(jump.port), addr);
    Regroup(key, "-l", QuoteArg(jump.user), fromPort);
    Regroup("ssh -W %h:%p", "-i", k, fromUser);
    RightGroup("ssh", "-W", "%h:%p", "-i" + (" " + (k + (" " + fromUser))));
  }

  lemma Regroup(before: string, flag: string, value: string, rest: string)
    ensures before + ((" " + flag + " ") + value) + (" " + rest)
        == before + (" " + (flag + (" " + (value + (" " + rest)))))
  {}

  lemma RightGroup(a: string, b: string, c: string, rest: string)
    ensures (a + (" " + (b + (" " + c)))) + (" " + rest) == a + (" " + (b + (" " + (c + (" " + rest)))))
  {}

  lemma ProxyHead(keyfile: string, rest: string)
    requires NulFree(keyfile)
    ensures var fromKey := QuoteArg(keyfile) + (" " + rest);
            Tokenize("ssh" + (" " + ("-W" + (" " + ("%h:%p" + (" " + ("-i" + (" " + fromKey))))))))
            == Tokens(rest, Blank, ["ssh", "-W", "%h:%p", "-i", keyfile])
  {
    var k := QuoteArg(keyfile) + (" " + rest);
    PlainThenBlank("ssh", "-W" + (" " + ("%h:%p" + (" " + ("-i" + (" " + k))))), []);
    PlainThenBlank("-W", "%h:%p" + (" " + ("-i" + (" " + k))), [] + ["ssh"]);
    PlainThenBlank("%h:%p", "-i" + (" " + k), [] + ["ssh"] + ["-W"]);
    PlainThenBlank("-i", k, [] + ["ssh"] + ["-W"] + ["%h:%p"]);
    QuotedThenBlank(keyfile, rest, [] + ["ssh"] + ["-W"] + ["%h:%p"] + ["-i"]);
    assert [] + ["ssh"] + ["-W"] + ["%h:%p"] + ["-i"] + [keyfile] == ["ssh", "-W", "%h:%p", "-i", keyfile];
  }

  lemma ProxyUser(jump: JumpHost, rest: string, done: seq<string>)
    requires NulFree(jump.user)
    ensures Tokens(if jump.user != "" then "-l" + (" " + (QuoteArg(jump.user) + (" " + rest))) else rest, Blank, done)
         == Tokens(rest, Blank, done + if jump.user != "" then ["-l", jump.user] else [])
  {
    if jump.user != "" {
      PlainThenBlank("-l", QuoteArg(jump.user) + (" " + rest), done);
      QuotedThenBlank(jump.user, rest, done + ["-l"]);
      assert done + ["-l"] + [jump.user] == done + ["-l", jump.user];
    } else {
      assert done + [] == done;
    }
  }

  lemma ProxyPort(jump: JumpHost, done: seq<string>)
    requires NulFree(jump.addr)
    ensures var addr := QuoteArg(jump.addr);
            Tokens(if jump.port > 0 then "-p" + (" " + (Dec(jump.port) + (" " + addr))) else addr, Blank, done)
            == Some(done + (if jump.port > 0 then ["-p", Dec(jump.port)] else []) + [jump.addr])
  {
    var port := if jump.port > 0 then ["-p", Dec(jump.port)] else [];
    if jump.port > 0 {
      DecPlain(jump.port);
      PlainThenBlank("-p", Dec(jump.port) + (" " + QuoteArg(jump.addr)), done);
      PlainThenBlank(Dec(jump.port), QuoteArg(jump.addr), done + ["-p"]);
      assert done + ["-p"] + [Dec(jump.port)] == done + port;
    } else {
      assert done + port == done;
    }
    assert QuoteArg(jump.addr) + "" == QuoteArg(jump.addr) && "" + jump.addr == jump.addr;
    QuotedArg(jump.addr, "", Blank, done + port);
  }
}
