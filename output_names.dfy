/** The optional value used by the parsers of this project. */
module Options {
  datatype Option<+T> = None | Some(value: T)
}

/** `getOutputFilename` of main.cpp: `"output/"`, a tag for the map family,
    a tag for the operation, the decimal thread id and `".out"`. Beside it, a
    parser that reads the three inputs back, so that the name is shown to
    determine them. */
module OutputNames {
  import opened Options
  import opened RandomStrings

  const OutputFolder: string := "output/"
  const OutputFileExtension: string := ".out"

  /** The two families of map the name can record. */
  datatype MapFamily = WaitFree | LockBased

  /** The three kinds of operation the name can record. */
  datatype OpKind = PutOp | GetOp | RemoveOp

  /** The inputs of a file name as far as the name keeps them. */
  datatype FileKey = FileKey(family: MapFamily, op: OpKind, tid: int)

  /** `hmType == 0` selects the wait-free family, every other value the lock-based one. */
  function FamilyOf(hmType: int): (f: MapFamily)
    ensures f == WaitFree <==> hmType == 0
  {
    if hmType == 0 then WaitFree else LockBased
  }

  /** `opType` 0 is a put, 1 a get, and every other value a remove. */
  function OpOf(opType: int): (k: OpKind)
    ensures k == PutOp <==> opType == 0
    ensures k == GetOp <==> opType == 1
  {
    if opType == 0 then PutOp else if opType == 1 then GetOp else RemoveOp
  }

  function FamilyTag(f: MapFamily): string {
    match f
    case WaitFree => "wait_free_"
    case LockBased => "lock_based_"
  }

  function OpTag(k: OpKind): string {
    match k
    case PutOp => "put_"
    case GetOp => "get_"
    case RemoveOp => "remove_"
  }

  function DigitChar(d: nat): (c: char)
    requires d < 10
    ensures IsDigit(c)
  {
    ('0' as int + d) as char
  }

  /** Decimal digits of a natural number, most significant first, as `std::to_string` writes them. */
  function NatToString(n: nat): (s: string)
    ensures |s| >= 1
    ensures forall i :: 0 <= i < |s| ==> IsDigit(s[i])
    ensures |s| > 1 ==> s[0] != '0'
  {
    if n < 10 then [DigitChar(n)] else NatToString(n / 10) + [DigitChar(n % 10)]
  }

  /** `std::to_string` of an `int`: a minus sign for a negative value, then its digits. */
  function IntToString(n: int): (s: string)
    ensures |s| >= 1
    ensures s[0] == '-' <==> n < 0
  {
    if n < 0 then "-" + NatToString(-n) else NatToString(n)
  }

  /** `getOutputFilename(hmType, opType, tid)`: every name lies in the output
      folder and carries the output extension. */
  function OutputFilename(hmType: int, opType: int, tid: int): (name: string)
    ensures |name| >= |OutputFolder| + |OutputFileExtension|
    ensures name[..|OutputFolder|] == OutputFolder
    ensures name[|name| - |OutputFileExtension|..] == OutputFileExtension
  {
    var family, op, digits := FamilyTag(FamilyOf(hmType)), OpTag(OpOf(opType)), IntToString(tid);
    Regroup(OutputFolder, family, op, digits, OutputFileExtension);
    Ends(OutputFolder, family + op + digits, OutputFileExtension);
    OutputFolder + family + op + digits + OutputFileExtension
  }

  // ---------------------------------------------------------------- parsing back

  /** The value of a non-empty string of decimal digits. */
  function ParseNat(s: string): (r: Option<nat>)
    ensures r.Some? ==> |s| >= 1
  {
    if |s| == 0 || !IsDigit(s[|s| - 1]) then None
    else
      var d := s[|s| - 1] as int - '0' as int;
      if |s| == 1 then Some(d)
      else match ParseNat(s[..|s| - 1])
        case None => None
        case Some(high) => Some(high * 10 + d)
  }

  /** The value of an optional minus sign followed by decimal digits. */
  function ParseInt(s: string): Option<int> {
    if |s| >= 1 && s[0] == '-' then
      match ParseNat(s[1..])
      case None => None
      case Some(m) => Some(-(m as int))
    else
      match ParseNat(s)
      case None => None
      case Some(m) => Some(m)
  }

  /** `s` without the leading `prefix`, when it starts with it. */
  function StripPrefix(prefix: string, s: string): (r: Option<string>)
    ensures r.Some? ==> s == prefix + r.value
  {
    if |prefix| <= |s| && s[..|prefix|] == prefix then Some(s[|prefix|..]) else None
  }

  function ParseFamily(s: string): Option<(MapFamily, string)> {
    match StripPrefix(FamilyTag(WaitFree), s)
    case Some(rest) => Some((WaitFree, rest))
    case None =>
      match StripPrefix(FamilyTag(LockBased), s)
      case Some(rest) => Some((LockBased, rest))
      case None => None
  }

  function ParseOp(s: string): Option<(OpKind, string)> {
    match StripPrefix(OpTag(PutOp), s)
    case Some(rest) => Some((PutOp, rest))
    case None =>
      match StripPrefix(OpTag(GetOp), s)
      case Some(rest) => Some((GetOp, rest))
      case None =>
        match StripPrefix(OpTag(RemoveOp), s)
        case Some(rest) => Some((RemoveOp, rest))
        case None => None
  }

  /** The thread id at the end of a name: decimal digits followed by the extension. */
  function ParseTid(s: string): Option<int> {
    var n := |OutputFileExtension|;
    if |s| < n || s[|s| - n..] != OutputFileExtension then None
    else ParseInt(s[..|s| - n])
  }

  /** Reads what follows the folder: family tag, operation tag, thread id, extension. */
  function ParseTags(s: string): Option<FileKey> {
    match ParseFamily(s)
    case None => None
    case Some((family, afterFamily)) =>
      match ParseOp(afterFamily)
      case None => None
      case Some((op, afterOp)) =>
        match ParseTid(afterOp)
        case None => None
        case Some(tid) => Some(FileKey(family, op, tid))
  }

  /** Reads a name of the shape `OutputFilename` builds back into its parts. */
  function ParseOutputFilename(name: string): Option<FileKey> {
    match StripPrefix(OutputFolder, name)
    case None => None
    case Some(afterFolder) => ParseTags(afterFolder)
  }

  // ---------------------------------------------------------------- lemmas

  /** Reading the digits of `n` back gives `n`. */
  lemma {:induction false} NatToStringRoundTrip(n: nat)
    ensures ParseNat(NatToString(n)) == Some(n)
  {
    var s := NatToString(n);
    if n >= 10 {
      NatToStringRoundTrip(n / 10);
      assert s[..|s| - 1] == NatToString(n / 10);
    }
  }

  /** Reading `std::to_string(n)` back gives `n`. */
  lemma IntToStringRoundTrip(n: int)
    ensures ParseInt(IntToString(n)) == Some(n)
  {
    if n < 0 {
      var digits := NatToString(-n);
      NatToStringRoundTrip(-n);
      assert IntToString(n) == "-" + digits;
      assert ("-" + digits)[1..] == digits;
    } else {
      NatToStringRoundTrip(n);
    }
  }

  lemma StripPrefixOfConcat(prefix: string, rest: string)
    ensures StripPrefix(prefix, prefix + rest) == Some(rest)
  {
    assert (prefix + rest)[..|prefix|] == prefix;
    assert (prefix + rest)[|prefix|..] == rest;
  }

  lemma ParseTidOfString(tid: int)
    ensures ParseTid(IntToString(tid) + OutputFileExtension) == Some(tid)
  {
    var digits := IntToString(tid);
    var s := digits + OutputFileExtension;
    assert s[..|s| - |OutputFileExtension|] == digits;
    assert s[|s| - |OutputFileExtension|..] == OutputFileExtension;
    IntToStringRoundTrip(tid);
  }

  lemma ParseFamilyOfTag(f: MapFamily, rest: string)
    ensures ParseFamily(FamilyTag(f) + rest) == Some((f, rest))
  {
    StripPrefixOfConcat(FamilyTag(f), rest);
    if f == LockBased {
      assert (FamilyTag(f) + rest)[0] == 'l';
    }
  }

  lemma ParseOpOfTag(k: OpKind, rest: string)
    ensures ParseOp(OpTag(k) + rest) == Some((k, rest))
  {
    StripPrefixOfConcat(OpTag(k), rest);
    if k != PutOp {
      assert (OpTag(k) + rest)[0] != 'p';
    }
    if k == RemoveOp {
      assert (OpTag(k) + rest)[0] == 'r';
    }
  }

  /** The file name records the map family (`hmType == 0` or not), the kind of
      operation (0, 1 or other) and the thread id, and they can be read back. */
  lemma OutputFilenameRoundTrip(hmType: int, opType: int, tid: int)
    ensures ParseOutputFilename(OutputFilename(hmType, opType, tid))
         == Some(FileKey(FamilyOf(hmType), OpOf(opType), tid))
  {
    var f, k := FamilyOf(hmType), OpOf(opType);
    var afterOp := IntToString(tid) + OutputFileExtension;
    var afterFamily := OpTag(k) + afterOp;
    var afterFolder := FamilyTag(f) + afterFamily;
    Regroup(OutputFolder, FamilyTag(f), OpTag(k), IntToString(tid), OutputFileExtension);
    StripPrefixOfConcat(OutputFolder, afterFolder);
    ParseFamilyOfTag(f, afterFamily);
    ParseOpOfTag(k, afterOp);
    ParseTidOfString(tid);
  }

  /** Two calls produce the same name only when they agree on the family, the
      kind of operation and the thread id: distinct writers never share a file. */
  lemma OutputFilenameInjective(h1: int, o1: int, t1: int, h2: int, o2: int, t2: int)
    requires OutputFilename(h1, o1, t1) == OutputFilename(h2, o2, t2)
    ensures (h1 == 0 <==> h2 == 0) && OpOf(o1) == OpOf(o2) && t1 == t2
  {
    OutputFilenameRoundTrip(h1, o1, t1);
    OutputFilenameRoundTrip(h2, o2, t2);
  }

  lemma Regroup(a: string, b: string, c: string, d: string, e: string)
    ensures a + b + c + d + e == a + (b + (c + (d + e)))
    ensures a + b + c + d + e == a + (b + c + d) + e
  {
  }

  lemma Ends(a: string, m: string, e: string)
    ensures var s := a + m + e;
      |s| >= |a| + |e| && s[..|a|] == a && s[|s| - |e|..] == e
  {
    var s := a + m + e;
    assert s[..|a|] == a;
    assert s[|s| - |e|..] == e;
  }
}
