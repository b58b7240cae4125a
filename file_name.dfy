/** Checking, and quoting where the solver allows it, a file path that is put on
    the command line of the solver run as a subprocess. */
module FileName {
  import opened SolverVersion

  /** The host's path separator: one of the two characters a path may be split on. */
  type Separator = c: char | c == '/' || c == '\\' witness '/'

  /** The separator the host does NOT use: `'/\\'` with the native one removed. */
  function Foreign(native: Separator): (c: Separator)
    ensures c != native
  {
    if native == '/' then '\\' else '/'
  }

  datatype ValidationError =
    | UnallowedCharacter(ch: char, purpose: string)
    | SpaceDetected(purpose: string)

  /** The text of the ValueError raised for each error. */
  function Message(e: ValidationError): string {
    match e
    case UnallowedCharacter(c, p) => "Unallowed character (" + [c] + ") found in CPLEX " + p + " file"
    case SpaceDetected(p) => "Space detected in CPLEX " + p + " file"
  }

  /** Either the path to put on the command line, or the error raised instead. */
  datatype Validated = Accepted(name: string) | Rejected(error: ValidationError)

  /** A path wrapped in one pair of double quotes. */
  function Quoted(s: string): (q: string)
    ensures |q| == |s| + 2
    ensures q[0] == '"' && q[|q| - 1] == '"'
    ensures q[1..|q| - 1] == s
  {
    "\"" + s + "\""
  }

  /** `_validate_file_name(solver, fname, purpose)`: a foreign separator is
      refused at every version; otherwise a space is refused before
      QuotingSince and quoted from it on; any other path passes unchanged. */
  function ValidateFileName(version: Version, native: Separator, fname: string, purpose: string): (r: Validated)
    ensures r.Rejected? <==> Foreign(native) in fname || (' ' in fname && Before(version, QuotingSince))
    ensures r.Rejected? && Foreign(native) in fname ==> r.error == UnallowedCharacter(Foreign(native), purpose)
    ensures r.Rejected? && Foreign(native) !in fname ==> r.error == SpaceDetected(purpose)
    ensures r.Accepted? && ' ' !in fname ==> r.name == fname
    ensures r.Accepted? && ' ' in fname ==> r.name == Quoted(fname)
  {
    var bad := Foreign(native);
    if bad in fname then
      Rejected(UnallowedCharacter(bad, purpose))
    else if ' ' in fname then
      if AtLeast(version, QuotingSince) then Accepted(Quoted(fname))
      else Rejected(SpaceDetected(purpose))
    else
      Accepted(fname)
  }

  /** Every name the validator hands out is usable on the solver's command line
      at that version: it holds no foreign separator, and a space in it only
      occurs inside a pair of quotes that a quoting-capable solver removes,
      giving back the caller's path exactly. */
  lemma {:induction false} AcceptedIsUsable(version: Version, native: Separator, fname: string, purpose: string)
    requires ValidateFileName(version, native, fname, purpose).Accepted?
    ensures var name := ValidateFileName(version, native, fname, purpose).name;
      Foreign(native) !in name
      && (' ' in name ==>
            AtLeast(version, QuotingSince) && |name| >= 2
            && name[0] == '"' && name[|name| - 1] == '"' && name[1..|name| - 1] == fname)
      && (' ' !in name ==> name == fname)
  {
    var name := ValidateFileName(version, native, fname, purpose).name;
    var bad := Foreign(native);
    if ' ' in fname {
      assert name == Quoted(fname);
      assert ' ' in name by {
        var i :| 0 <= i < |fname| && fname[i] == ' ';
        assert name[1..|name| - 1][i] == ' ';
      }
    }
  }

  /** A path once accepted stays accepted, with the same name, on every later
      release: upgrading the solver never breaks a command line that worked. */
  lemma AcceptedStaysAccepted(v: Version, w: Version, native: Separator, fname: string, purpose: string)
    requires ValidateFileName(v, native, fname, purpose).Accepted?
    requires AtLeast(w, v)
    ensures ValidateFileName(w, native, fname, purpose) == ValidateFileName(v, native, fname, purpose)
  {
    if ' ' in fname {
      AtLeastMonotone(v, w, QuotingSince);
    }
  }

  /** A foreign separator is refused with the same error whatever the version. */
  lemma ForeignSeparatorIgnoresVersion(v: Version, w: Version, native: Separator, fname: string, purpose: string)
    requires Foreign(native) in fname
    ensures ValidateFileName(v, native, fname, purpose) == ValidateFileName(w, native, fname, purpose)
    ensures ValidateFileName(v, native, fname, purpose) == Rejected(UnallowedCharacter(Foreign(native), purpose))
  {
  }

  /** The quoting threshold: a path with a space (and no foreign separator) is
      refused before QuotingSince and quoted from it on. */
  lemma SpaceQuotingThreshold(version: Version, native: Separator, fname: string, purpose: string)
    requires ' ' in fname && Foreign(native) !in fname
    ensures Before(version, QuotingSince) ==>
      ValidateFileName(version, native, fname, purpose) == Rejected(SpaceDetected(purpose))
    ensures AtLeast(version, QuotingSince) ==>
      ValidateFileName(version, native, fname, purpose) == Accepted(Quoted(fname))
  {
  }

  // The cases of the unit test, at the two releases it uses and with 'xxx' as purpose.

  /** 'foo.lp' is returned unchanged at 12.6.0 and at 12.8.0. */
  lemma PlainFileUnchanged(native: Separator)
    ensures ValidateFileName(V126, native, "foo.lp", "xxx") == Accepted("foo.lp")
    ensures ValidateFileName(V128, native, "foo.lp", "xxx") == Accepted("foo.lp")
  {
    assert Foreign(native) !in "foo.lp";
    assert ' ' !in "foo.lp";
  }

  /** 'foo bar.lp' is refused with "Space detected in CPLEX xxx file" at 12.6.0. */
  lemma SpacedFileRefusedOnOldRelease(native: Separator)
    ensures var r := ValidateFileName(V126, native, "foo bar.lp", "xxx");
      r.Rejected? && Message(r.error) == "Space detected in CPLEX xxx file"
  {
    var fname := "foo bar.lp";
    assert Foreign(native) !in fname;
    assert fname[3] == ' ';
    assert ValidateFileName(V126, native, fname, "xxx") == Rejected(SpaceDetected("xxx"));
  }

  /** 'foo bar.lp' is returned as '"foo bar.lp"' at 12.8.0. */
  lemma SpacedFileQuotedOnNewRelease(native: Separator)
    ensures ValidateFileName(V128, native, "foo bar.lp", "xxx") == Accepted("\"foo bar.lp\"")
  {
    var fname := "foo bar.lp";
    assert Foreign(native) !in fname;
    assert fname[3] == ' ';
  }

  /** 'foo' + native separator + 'bar.lp' is returned unchanged at both releases. */
  lemma NativeSeparatorAccepted(native: Separator)
    ensures ValidateFileName(V126, native, "foo" + [native] + "bar.lp", "xxx") == Accepted("foo" + [native] + "bar.lp")
    ensures ValidateFileName(V128, native, "foo" + [native] + "bar.lp", "xxx") == Accepted("foo" + [native] + "bar.lp")
  {
    var fname := "foo" + [native] + "bar.lp";
    assert Foreign(native) !in fname by {
      assert forall i :: 0 <= i < |fname| ==> fname[i] == native || fname[i] in "foobar.lp";
    }
    assert ' ' !in fname by {
      assert forall i :: 0 <= i < |fname| ==> fname[i] == native || fname[i] in "foobar.lp";
    }
  }

  /** 'foo' + foreign separator + 'bar.lp' is refused at both releases with
      "Unallowed character (<c>) found in CPLEX xxx file". */
  lemma ForeignSeparatorRejected(native: Separator)
    ensures var bad := Foreign(native);
      var r := ValidateFileName(V126, native, "foo" + [bad] + "bar.lp", "xxx");
      r.Rejected? && Message(r.error) == "Unallowed character (" + [bad] + ") found in CPLEX xxx file"
    ensures var bad := Foreign(native);
      var r := ValidateFileName(V128, native, "foo" + [bad] + "bar.lp", "xxx");
      r.Rejected? && Message(r.error) == "Unallowed character (" + [bad] + ") found in CPLEX xxx file"
  {
    var bad := Foreign(native);
    assert ("foo" + [bad] + "bar.lp")[3] == bad;
  }
}
