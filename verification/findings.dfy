/** Concrete configuration files and what parse_config_file makes of
    them, under both revisions. All but the last are inputs on which
    daemon.c as written and the evidently intended code part ways (README
    "Findings"). */
module Findings {
  import opened Common
  import opened CharClass
  import opened Booleans
  import opened Settings
  import opened Dispatch
  import opened Parser
  import opened ScanShapes
  import opened Placement
  import opened ConfigLines
  import opened ConfigText

  /** A header with nothing around the identifier: `id=`. */
  function Bare(id: string): Header
  {
    Header("", id, "", "")
  }

  lemma {:induction false} BareWellFormed(id: string)
    requires IsIdentifier(id)
    ensures WellFormedHeader(Bare(id)) && HeaderText(Bare(id)) == id + "="
  {
    AllIntro("", IsSpace);
    AllIntro("", IsBlank);
  }

  /** A file holding the single line `id=value` applies that one pair:
      success with the pair applied, or the dispatch's error. */
  lemma {:induction false} SinglePairFile(id: string, value: string, o: Options, rev: Revision)
    requires IsIdentifier(id) && IsPlainValue(value)
    ensures '\0' !in id && '\0' !in value
    ensures ParseConfig(id + "=" + value + "\n", o, Reliable, rev)
            == match Apply(id, value, o, rev)
               case Rejected(e) => Outcome(Malformed(e), o)
               case Applied(o') => Outcome(Success, o')
  {
    BareWellFormed(id);
    HeaderNoNul(Bare(id));
    PlainValueNoNul(value);
    var lines := [Assignment(Bare(id), value)];
    assert WellFormedLine(lines[0]);
    assert Render(lines) + EndingText(Trailing("")) == id + "=" + value + "\n" by {
      assert Render(lines[1..]) == "";
    }
    AllIntro("", IsSpace);
    ParseConfigMeaning(lines, Trailing(""), o, Reliable, rev);
    assert Interpret(lines[1..], o, rev) == Outcome(Success, o);
    match Apply(id, value, o, rev)
    case Rejected(e) =>
    case Applied(o') =>
      assert Interpret(lines[1..], o', rev) == Outcome(Success, o');
  }

  lemma {:induction false} IdentifierLiterals()
    ensures IsIdentifier("daemonize") && IsIdentifier("verbose") && IsIdentifier("syslog_ident")
  {
    AllIntro("daemonize", IsIdentChar);
    AllIntro("verbose", IsIdentChar);
    AllIntro("syslog_ident", IsIdentChar);
  }

  /** `daemonize=yes` turns backgrounding off as written; the documented
      meaning of "yes" turns it on. */
  lemma {:induction false} YesReadsAsNo(data: string, o: Options)
    requires data == "daemonize=yes\n"
    ensures ParseConfig(data, o, Reliable, AsWritten) == Outcome(Success, o.(background := false))
    ensures ParseConfig(data, o, Reliable, Corrected) == Outcome(Success, o.(background := true))
  {
    IdentifierLiterals();
    assert IsPlainValue("yes");
    assert "daemonize" + "=" + "yes" + "\n" == "daemonize=yes\n";
    LiteralsByLength("yes");
    assert ValidateBoolean("yes") == 0;
    assert CorrectedValidateBoolean("yes") == 1;
    SinglePairFile("daemonize", "yes", o, AsWritten);
    SinglePairFile("daemonize", "yes", o, Corrected);
  }

  /** `verbose=true` is rejected as written; the documented meaning turns
      verbose logging on. */
  lemma {:induction false} TrueRejected(o: Options)
    ensures ParseConfig("verbose=true\n", o, Reliable, AsWritten) == Outcome(Malformed(InvalidBoolean("true")), o)
    ensures ParseConfig("verbose=true\n", o, Reliable, Corrected) == Outcome(Success, o.(verbose := true))
  {
    IdentifierLiterals();
    assert IsPlainValue("true");
    assert "verbose" + "=" + "true" + "\n" == "verbose=true\n";
    assert ValidateBoolean("true") == -1;
    assert CorrectedValidateBoolean("true") == 1;
    SinglePairFile("verbose", "true", o, AsWritten);
    SinglePairFile("verbose", "true", o, Corrected);
  }

  /** `verbose=false` is rejected as written; the documented meaning turns
      verbose logging off. */
  lemma {:induction false} FalseRejected(o: Options)
    ensures ParseConfig("verbose=false\n", o, Reliable, AsWritten) == Outcome(Malformed(InvalidBoolean("false")), o)
    ensures ParseConfig("verbose=false\n", o, Reliable, Corrected) == Outcome(Success, o.(verbose := false))
  {
    IdentifierLiterals();
    assert IsPlainValue("false");
    assert "verbose" + "=" + "false" + "\n" == "verbose=false\n";
    assert ValidateBoolean("false") == -1;
    assert CorrectedValidateBoolean("false") == 0;
    SinglePairFile("verbose", "false", o, AsWritten);
    SinglePairFile("verbose", "false", o, Corrected);
  }

  /** `daemonize=1` with no newline after it: the code as written drops the
      value's last character and rejects the empty value; the intended code
      keeps "1" and turns backgrounding on. */
  lemma {:induction false} LastCharacterDropped(o: Options)
    ensures ParseConfig("daemonize=1", o, Reliable, AsWritten) == Outcome(Malformed(InvalidBoolean("")), o)
    ensures ParseConfig("daemonize=1", o, Reliable, Corrected) == Outcome(Success, o.(background := true))
  {
    var data := "daemonize=1";
    IdentifierLiterals();
    BareWellFormed("daemonize");
    assert IsPlainValue("1");
    assert '\0' !in data;
    assert NulIndex(data) == 11;
    assert HeaderText(Bare("daemonize")) + "1" == data;
    PlacedIntro(data, 0, data);
    FinalAssignmentLine(data, 0, Bare("daemonize"), "1", o, Reliable, 0, AsWritten);
    FinalAssignmentLine(data, 0, Bare("daemonize"), "1", o, Reliable, 0, Corrected);
    assert KeptAtEnd("1", AsWritten) == "";
    LiteralsByLength("");
    LiteralsByLength("1");
    assert ParseFrom(data, 11, o.(background := true), Reliable, 2, Corrected) == Outcome(Success, o.(background := true));
  }

  /** The line `daemonize=1# on` followed by a newline. */
  function RemarkedDaemonize(): seq<Line>
  {
    [RemarkedAssignment(Bare("daemonize"), "1", " on")]
  }

  /** As written, a comment right after an unquoted value changes what
      the file means: `daemonize=1# on` keeps "" and is rejected, while
      the same file without its comment turns backgrounding on. The
      repaired code ignores the comment (ConfigText.CommentsIgnored). */
  lemma {:induction false} CommentChangesMeaning(o: Options)
    ensures WellFormedLines(RemarkedDaemonize())
    ensures ParseConfig(Render(RemarkedDaemonize()), o, Reliable, AsWritten) == Outcome(Malformed(InvalidBoolean("")), o)
    ensures ParseConfig(Render(UncommentedLines(RemarkedDaemonize())), o, Reliable, AsWritten)
            == Outcome(Success, o.(background := true))
  {
    var lines := RemarkedDaemonize();
    IdentifierLiterals();
    BareWellFormed("daemonize");
    assert IsPlainValue("1");
    AllIntro(" on", InLine);
    AllIntro("", IsSpace);
    assert WellFormedLine(lines[0]);
    var u := UncommentedLines(lines);
    assert u == [Assignment(Bare("daemonize"), "1")] by {
      assert UncommentedLines(lines[1..]) == [];
    }
    assert WellFormedLine(u[0]);
    assert KeptAtEnd("1", AsWritten) == "";
    LiteralsByLength("");
    LiteralsByLength("1");
    assert lines[1..] == [] && u[1..] == [];
    assert Render(lines) + EndingText(Trailing("")) == Render(lines);
    assert Render(u) + EndingText(Trailing("")) == Render(u);
    ParseConfigMeaning(lines, Trailing(""), o, Reliable, AsWritten);
    ParseConfigMeaning(u, Trailing(""), o, Reliable, AsWritten);
    assert Interpret(u[1..], o.(background := true), AsWritten) == Outcome(Success, o.(background := true));
  }

  /** A file `<header for syslog_ident>#`: the value is empty and a
      comment follows at once. */
  lemma {:induction false} EmptyIdentThenComment(data: string, h: Header, o: Options, rev: Revision)
    requires WellFormedHeader(h) && h.id == "syslog_ident"
    requires Placed(data, 0, HeaderText(h) + "#") && NulIndex(data) == |HeaderText(h)| + 1
    ensures rev.AsWritten? ==> ParseConfig(data, o, Reliable, rev) == Outcome(Undefined, o)
    ensures rev.Corrected? ==>
              ParseConfig(data, o, Reliable, rev) == Outcome(Success, o.(syslogIdent := StrNCopy("", IdentCapacity)))
  {
    var v := |HeaderText(h)|;
    EmptyValueBeforeComment(data, 0, h, v, o, Reliable, 0, rev);
    if rev.Corrected? {
      PlacedSplit(data, 0, HeaderText(h), "#", v);
      AllIntro("", IsSpace);
      assert "" + "#" + "" == "#";
      FinalComment(data, v, "", "", o.(syslogIdent := StrNCopy("", IdentCapacity)), Reliable, 2, rev);
    }
  }

  /** `syslog_ident=#`: an empty value cut short by a comment. The code as
      written writes before the block it allocated; the intended code stores
      the empty ident and skips the comment. */
  lemma {:induction false} EmptyValueUndefined(o: Options)
    ensures ParseConfig("syslog_ident=#", o, Reliable, AsWritten) == Outcome(Undefined, o)
    ensures ParseConfig("syslog_ident=#", o, Reliable, Corrected)
            == Outcome(Success, o.(syslogIdent := StrNCopy("", IdentCapacity)))
  {
    var data := "syslog_ident=#";
    IdentifierLiterals();
    BareWellFormed("syslog_ident");
    assert '\0' !in data && |data| == 14;
    assert HeaderText(Bare("syslog_ident")) + "#" == data;
    PlacedIntro(data, 0, data);
    EmptyIdentThenComment(data, Bare("syslog_ident"), o, AsWritten);
    EmptyIdentThenComment(data, Bare("syslog_ident"), o, Corrected);
  }

  /** The second statement of `syslog_ident="a" verbose=1`. */
  function VerboseOn(): seq<Line>
  {
    [Assignment(Header(" ", "verbose", "", ""), "1")]
  }

  lemma {:induction false} VerboseOnText()
    ensures WellFormedLines(VerboseOn()) && Render(VerboseOn()) == " verbose=1\n"
  {
    var lines := VerboseOn();
    IdentifierLiterals();
    AllIntro(" ", IsSpace);
    AllIntro("", IsSpace);
    AllIntro("", IsBlank);
    assert WellFormedHeader(lines[0].h) && HeaderText(lines[0].h) == " verbose=";
    assert IsPlainValue("1");
    assert Render(lines[1..]) == "";
  }

  lemma {:induction false} TwoPairsText()
    ensures WellFormedHeader(Bare("syslog_ident")) && IsQuotedContent("a") && WellFormedLines(VerboseOn())
    ensures HeaderText(Bare("syslog_ident")) + Quoted("a") + Render(VerboseOn()) + EndingText(Trailing("")) == "syslog_ident=\"a\" verbose=1\n"
  {
    IdentifierLiterals();
    BareWellFormed("syslog_ident");
    VerboseOnText();
    assert IsQuotedContent("a");
    assert Quoted("a") == "\"a\"";
  }

  lemma {:induction false} TwoPairsMeaning(o: Options, rev: Revision)
    requires WellFormedLines([QuotedAssignment(Bare("syslog_ident"), "a", "", None)] + VerboseOn())
    ensures Interpret([QuotedAssignment(Bare("syslog_ident"), "a", "", None)] + VerboseOn(), o, rev)
            == Outcome(Success, o.(syslogIdent := StrNCopy("a", IdentCapacity), verbose := true))
  {
    var lines := VerboseOn();
    var all := [QuotedAssignment(Bare("syslog_ident"), "a", "", None)] + lines;
    var o1 := o.(syslogIdent := StrNCopy("a", IdentCapacity));
    assert ClassifyBoolean("1", rev) == 1;
    assert all[1..] == lines && lines[1..] == [];
    assert Interpret(all, o, rev) == Interpret(lines, o1, rev);
    assert Interpret(lines, o1, rev) == Interpret([], o1.(verbose := true), rev);
  }

  /** `syslog_ident="a" verbose=1`: the scan resumes right after a closing
      quote, so text after it on the same line is read as a statement of
      its own, here a second pair. */
  lemma {:induction false} TwoPairsOnOneLine(data: string, o: Options, rev: Revision)
    requires data == "syslog_ident=\"a\" verbose=1\n"
    ensures ParseConfig(data, o, Reliable, rev)
            == Outcome(Success, o.(syslogIdent := StrNCopy("a", IdentCapacity), verbose := true))
  {
    TwoPairsText();
    AllIntro("", IsSpace);
    QuotedPairThenLines(Bare("syslog_ident"), "a", VerboseOn(), Trailing(""), o, rev);
    TwoPairsMeaning(o, rev);
  }
}
