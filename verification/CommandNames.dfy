/** Which commands the table accepts, in a client's terms: a name in any mixture of cases and a
    number of arguments (app/command.c:651-707). */
module CommandNames {
  import opened Options
  import opened CText
  import opened Commands

  /** `s` is the upper-case `name`, with any of its letters in lower case. */
  predicate Spelled(s: string, name: string) {
    && |s| == |name|
    && forall i :: 0 <= i < |s| ==>
         s[i] == name[i] || ('A' <= name[i] <= 'Z' && s[i] as int == name[i] as int + 32)
  }

  predicate IsUpper(name: string) {
    forall i :: 0 <= i < |name| ==> 'A' <= name[i] <= 'Z'
  }

  lemma SpelledIff(s: string, name: string)
    requires IsUpper(name)
    ensures SameName(s, name) <==> Spelled(s, name)
  {
    if SameName(s, name) {
      forall i | 0 <= i < |s|
        ensures s[i] == name[i] || ('A' <= name[i] <= 'Z' && s[i] as int == name[i] as int + 32)
      {
        assert name[i] == Upper(s)[i];
      }
    }
    if Spelled(s, name) {
      forall i | 0 <= i < |s| ensures Upper(s)[i] == name[i] {
        assert 'A' <= name[i] <= 'Z';
      }
      assert Upper(s) == name;
    }
  }

  /** A command's kind and how many arguments it takes, its name included. */
  datatype Known = Known(kind: Kind, least: nat, most: Option<int>) | Unknown

  function Reference(s: string): Known {
    if Spelled(s, "SET") then Known(KSet, 3, Some(5))
    else if Spelled(s, "GET") then Known(KGet, 2, Some(2))
    else if Spelled(s, "PING") then Known(KPing, 1, Some(1))
    else if Spelled(s, "ECHO") then Known(KEcho, 2, Some(2))
    else if Spelled(s, "TYPE") then Known(KType, 2, Some(2))
    else if Spelled(s, "XADD") then Known(KXadd, 4, None)
    else if Spelled(s, "XRANGE") then Known(KXrange, 4, Some(4))
    else if Spelled(s, "XREAD") then Known(KXread, 4, None)
    else if Spelled(s, "INCR") then Known(KIncr, 2, Some(2))
    else if Spelled(s, "MULTI") then Known(KMulti, 1, Some(1))
    else if Spelled(s, "EXEC") then Known(KExec, 1, Some(1))
    else if Spelled(s, "DISCARD") then Known(KDiscard, 0, None)
    else if Spelled(s, "CONFIG") then Known(KConfig, 3, Some(3))
    else if Spelled(s, "KEYS") then Known(KKeys, 2, Some(2))
    else if Spelled(s, "INFO") then Known(KInfo, 1, Some(2))
    else if Spelled(s, "REPLCONF") then Known(KReplconf, 3, Some(3))
    else if Spelled(s, "PSYNC") then Known(KPsync, 3, Some(3))
    else if Spelled(s, "WAIT") then Known(KWait, 3, Some(3))
    else Unknown
  }

  function KnownRow(r: Option<Row>): Known {
    match r
    case None => Unknown
    case Some(row) => Known(row.kind, row.minArgs, if row.maxArgs == -1 then None else Some(row.maxArgs))
  }

  lemma FindStep(s: string, i: nat, name: string, known: Known)
    requires i < |BASE_COMMANDS| && BASE_COMMANDS[i].name == name && IsUpper(name)
    requires KnownRow(Some(BASE_COMMANDS[i])) == known
    ensures KnownRow(FindCommand(s, i)) == if Spelled(s, name) then known else KnownRow(FindCommand(s, i + 1))
  {
    SpelledIff(s, name);
  }

  lemma Find0(s: string, i: nat)
    requires i == 0
    ensures KnownRow(FindCommand(s, i))
         == if Spelled(s, "SET") then Known(KSet, 3, Some(5))
            else if Spelled(s, "GET") then Known(KGet, 2, Some(2))
            else if Spelled(s, "PING") then Known(KPing, 1, Some(1))
            else KnownRow(FindCommand(s, i + 3))
  {
    FindStep(s, i, "SET", Known(KSet, 3, Some(5)));
    FindStep(s, i + 1, "GET", Known(KGet, 2, Some(2)));
    FindStep(s, i + 2, "PING", Known(KPing, 1, Some(1)));
  }

  lemma Find3(s: string, i: nat)
    requires i == 3
    ensures KnownRow(FindCommand(s, i))
         == if Spelled(s, "ECHO") then Known(KEcho, 2, Some(2))
            else if Spelled(s, "TYPE") then Known(KType, 2, Some(2))
            else if Spelled(s, "XADD") then Known(KXadd, 4, None)
            else KnownRow(FindCommand(s, i + 3))
  {
    FindStep(s, i, "ECHO", Known(KEcho, 2, Some(2)));
    FindStep(s, i + 1, "TYPE", Known(KType, 2, Some(2)));
    FindStep(s, i + 2, "XADD", Known(KXadd, 4, None));
  }

  lemma Find6(s: string, i: nat)
    requires i == 6
    ensures KnownRow(FindCommand(s, i))
         == if Spelled(s, "XRANGE") then Known(KXrange, 4, Some(4))
            else if Spelled(s, "XREAD") then Known(KXread, 4, None)
            else if Spelled(s, "INCR") then Known(KIncr, 2, Some(2))
            else KnownRow(FindCommand(s, i + 3))
  {
    FindStep(s, i, "XRANGE", Known(KXrange, 4, Some(4)));
    FindStep(s, i + 1, "XREAD", Known(KXread, 4, None));
    FindStep(s, i + 2, "INCR", Known(KIncr, 2, Some(2)));
  }

  lemma Find9(s: string, i: nat)
    requires i == 9
    ensures KnownRow(FindCommand(s, i))
         == if Spelled(s, "MULTI") then Known(KMulti, 1, Some(1))
            else if Spelled(s, "EXEC") then Known(KExec, 1, Some(1))
            else if Spelled(s, "DISCARD") then Known(KDiscard, 0, None)
            else KnownRow(FindCommand(s, i + 3))
  {
    FindStep(s, i, "MULTI", Known(KMulti, 1, Some(1)));
    FindStep(s, i + 1, "EXEC", Known(KExec, 1, Some(1)));
    FindStep(s, i + 2, "DISCARD", Known(KDiscard, 0, None));
  }

  lemma Find12(s: string, i: nat)
    requires i == 12
    ensures KnownRow(FindCommand(s, i))
         == if Spelled(s, "CONFIG") then Known(KConfig, 3, Some(3))
            else if Spelled(s, "KEYS") then Known(KKeys, 2, Some(2))
            else if Spelled(s, "INFO") then Known(KInfo, 1, Some(2))
            else KnownRow(FindCommand(s, i + 3))
  {
    FindStep(s, i, "CONFIG", Known(KConfig, 3, Some(3)));
    FindStep(s, i + 1, "KEYS", Known(KKeys, 2, Some(2)));
    FindStep(s, i + 2, "INFO", Known(KInfo, 1, Some(2)));
  }

  lemma Find15(s: string, i: nat)
    requires i == 15
    ensures KnownRow(FindCommand(s, i))
         == if Spelled(s, "REPLCONF") then Known(KReplconf, 3, Some(3))
            else if Spelled(s, "PSYNC") then Known(KPsync, 3, Some(3))
            else if Spelled(s, "WAIT") then Known(KWait, 3, Some(3))
            else Unknown
  {
    FindStep(s, i, "REPLCONF", Known(KReplconf, 3, Some(3)));
    FindStep(s, i + 1, "PSYNC", Known(KPsync, 3, Some(3)));
    FindStep(s, i + 2, "WAIT", Known(KWait, 3, Some(3)));
  }

  lemma FindIsReference(s: string, i: nat)
    requires i == 0
    ensures KnownRow(FindCommand(s, i)) == Reference(s)
  {
    Find0(s, i);
    Find3(s, i + 3);
    Find6(s, i + 6);
    Find9(s, i + 9);
    Find12(s, i + 12);
    Find15(s, i + 15);
  }

  /** What the checks before a handler come to, given what the table says of the name. */
  function Verdict(known: Known, n: nat): Commands.Verdict {
    match known
    case Unknown => Refused(Text("-unknown command\r\n"))
    case Known(kind, least, most) =>
      if n < least || (most.Some? && n > most.value) then Refused(Text("-wrong number of arguments\r\n"))
      else Accepted(kind)
  }

  lemma ClassifyKnown(cmd: Command, known: Known)
    requires cmd != [] && KnownRow(FindCommand(CStr(cmd[0]), 0)) == known
    ensures Classify(cmd) == Verdict(known, |cmd|)
  {
    RefusalTexts();
  }

  /** What the checks before a handler make of any command. */
  lemma ClassifyIs(cmd: Command)
    ensures Classify(cmd) == if cmd == [] then Refused(Text("-wrong number of arguments\r\n"))
                             else Verdict(Reference(CStr(cmd[0])), |cmd|)
  {
    if cmd == [] {
      RefusalTexts();
    } else {
      FindIsReference(CStr(cmd[0]), 0);
      ClassifyKnown(cmd, Reference(CStr(cmd[0])));
    }
  }

  lemma RefusalTexts()
    ensures ErrorText("wrong number of arguments") == Text("-wrong number of arguments\r\n")
    ensures ErrorText("unknown command") == Text("-unknown command\r\n")
  {
    assert "-" + "wrong number of arguments" + CRLF == "-wrong number of arguments\r\n";
    assert "-" + "unknown command" + CRLF == "-unknown command\r\n";
  }

  // ----- The commands one by one -----

  /** A text spells one name only, and holds no NUL. */
  lemma OneName(s: string, name: string)
    requires IsUpper(name) && Spelled(s, name)
    ensures CStr(s) == s
    ensures forall other :: IsUpper(other) && Spelled(s, other) ==> other == name
  {
    forall other | IsUpper(other) && Spelled(s, other) ensures other == name {
      forall i | 0 <= i < |s| ensures other[i] == name[i] {
        assert 'A' <= name[i] <= 'Z' && 'A' <= other[i] <= 'Z';
      }
    }
    forall c | c in s ensures c != '\0' {
      var i :| 0 <= i < |s| && s[i] == c;
      assert 'A' <= name[i] <= 'Z';
    }
  }

  lemma Named(cmd: Command, name: string, known: Known)
    requires cmd != [] && IsUpper(name) && Spelled(cmd[0], name) && known.Known? && Reference(cmd[0]) == known
    requires known.least <= |cmd| && (known.most.Some? ==> |cmd| <= known.most.value)
    ensures Classify(cmd) == Accepted(known.kind)
  {
    OneName(cmd[0], name);
    ClassifyIs(cmd);
  }

  lemma SetIsSet(cmd: Command)
    requires 3 <= |cmd| <= 5 && Spelled(cmd[0], "SET")
    ensures Classify(cmd) == Accepted(KSet)
  {
    Named(cmd, "SET", Known(KSet, 3, Some(5)));
  }

  lemma GetIsGet(cmd: Command)
    requires |cmd| == 2 && Spelled(cmd[0], "GET")
    ensures Classify(cmd) == Accepted(KGet)
  {
    OneName(cmd[0], "GET");
    Named(cmd, "GET", Known(KGet, 2, Some(2)));
  }

  lemma EchoIsEcho(cmd: Command)
    requires |cmd| == 2 && Spelled(cmd[0], "ECHO")
    ensures Classify(cmd) == Accepted(KEcho)
  {
    OneName(cmd[0], "ECHO");
    Named(cmd, "ECHO", Known(KEcho, 2, Some(2)));
  }

  lemma XaddIsXadd(cmd: Command)
    requires |cmd| >= 4 && Spelled(cmd[0], "XADD")
    ensures Classify(cmd) == Accepted(KXadd)
  {
    OneName(cmd[0], "XADD");
    Named(cmd, "XADD", Known(KXadd, 4, None));
  }

  lemma XrangeIsXrange(cmd: Command)
    requires |cmd| == 4 && Spelled(cmd[0], "XRANGE")
    ensures Classify(cmd) == Accepted(KXrange)
  {
    OneName(cmd[0], "XRANGE");
    Named(cmd, "XRANGE", Known(KXrange, 4, Some(4)));
  }

  lemma IncrIsIncr(cmd: Command)
    requires |cmd| == 2 && Spelled(cmd[0], "INCR")
    ensures Classify(cmd) == Accepted(KIncr)
  {
    OneName(cmd[0], "INCR");
    Named(cmd, "INCR", Known(KIncr, 2, Some(2)));
  }

  lemma MultiIsMulti(cmd: Command)
    requires |cmd| == 1 && Spelled(cmd[0], "MULTI")
    ensures Classify(cmd) == Accepted(KMulti)
  {
    OneName(cmd[0], "MULTI");
    Named(cmd, "MULTI", Known(KMulti, 1, Some(1)));
  }

  lemma ExecIsExec(cmd: Command)
    requires |cmd| == 1 && Spelled(cmd[0], "EXEC")
    ensures Classify(cmd) == Accepted(KExec)
  {
    OneName(cmd[0], "EXEC");
    Named(cmd, "EXEC", Known(KExec, 1, Some(1)));
  }

  lemma ReplconfIsReplconf(cmd: Command)
    requires |cmd| == 3 && Spelled(cmd[0], "REPLCONF")
    ensures Classify(cmd) == Accepted(KReplconf)
  {
    OneName(cmd[0], "REPLCONF");
    Named(cmd, "REPLCONF", Known(KReplconf, 3, Some(3)));
  }

  /** Each of these kinds has one name. */
  lemma KindIsNamed(s: string, known: Known)
    requires Reference(s) == known && known.Known?
    ensures known.kind == KSet ==> Spelled(s, "SET")
    ensures known.kind == KIncr ==> Spelled(s, "INCR")
    ensures known.kind == KXadd ==> Spelled(s, "XADD")
  {
  }

  /** And each of these names one kind. */
  lemma NameIsKind(s: string)
    ensures Spelled(s, "SET") ==> Reference(s) == Known(KSet, 3, Some(5))
    ensures Spelled(s, "INCR") ==> Reference(s) == Known(KIncr, 2, Some(2))
    ensures Spelled(s, "XADD") ==> Reference(s) == Known(KXadd, 4, None)
  {
    if Spelled(s, "INCR") {
      OneName(s, "INCR");
    }
    if Spelled(s, "XADD") {
      OneName(s, "XADD");
    }
  }
}
