/** Signed notes. */
module Notes {
  // How a message is split into text and signature lines, which lines are
  // checked, and how a note is signed.  A verifier checks a signature
  // symbolically: it must be made by the verifier's key over exactly this text.

  import opened Wrappers
  import opened Symbols
  import opened Lines

  datatype KeyId = KeyId(name: Bytes, hash: word32)

  datatype Verifier = Verifier(id: KeyId, key: Key) {
    predicate Verify(text: Bytes, sig: Sig) { sig == Sig(key, text) }
  }

  datatype Signer = Signer(id: KeyId, key: Key) {
    function Sign(text: Bytes): Sig { Sig(key, text) }
  }

  /** One signature line: the name and key hash it claims, and its signature. */
  datatype SigLine = SigLine(id: KeyId, sig: Sig)

  datatype Note = Note(text: Bytes, sigs: seq<SigLine>, unverified: seq<SigLine>)

  const MAX_SIGNATURES := 100

  // ---------------------------------------------------------- one signature line

  const SIG_PREFIX: Bytes := [Byte(226), Byte(128), Byte(148), SPACE]  // em dash, space

  predicate IsSpace(s: Sym) { s.Byte? && (s.b == 32 || 9 <= s.b <= 13) }

  /** A key name: bytes only, not empty, no space and no plus sign. */
  predicate ValidName(name: Bytes) {
    name != [] && forall s :: s in name ==> s.Byte? && !IsSpace(s) && s.b != 43
  }

  function IndexSpace(s: Bytes): (i: nat)
    ensures i <= |s|
    ensures forall j :: 0 <= j < i ==> s[j] != SPACE
    ensures i < |s| ==> s[i] == SPACE
  {
    if s == [] || s[0] == SPACE then 0 else 1 + IndexSpace(s[1..])
  }

  function FormatSigLine(l: SigLine): Bytes {
    SIG_PREFIX + l.id.name + [SPACE, SigBlock(l.id.hash, l.sig)]
  }

  function ParseSigLine(line: Bytes): Option<SigLine> {
    if !(SIG_PREFIX <= line) then None else
      var rest := line[|SIG_PREFIX|..];
      var sp := IndexSpace(rest);
      if sp + 2 != |rest| || !rest[sp + 1].SigBlock? || !ValidName(rest[..sp]) then None
      else Some(SigLine(KeyId(rest[..sp], rest[sp + 1].keyHash), rest[sp + 1].sig))
  }

  lemma ParseFormatSigLine(l: SigLine)
    requires ValidName(l.id.name)
    ensures ParseSigLine(FormatSigLine(l)) == Some(l)
    ensures FormatSigLine(l) != [] && OneLine(FormatSigLine(l))
  {
    var line := FormatSigLine(l);
    var rest := line[|SIG_PREFIX|..];
    assert rest == l.id.name + [SPACE, SigBlock(l.id.hash, l.sig)];
    assert forall i :: 0 <= i < |l.id.name| ==> rest[i] == l.id.name[i] && rest[i] in l.id.name;
    assert rest[|l.id.name|] == SPACE;
    assert IndexSpace(rest) == |l.id.name|;
    assert rest[..|l.id.name|] == l.id.name;
  }

  lemma FormatParseSigLine(line: Bytes)
    requires ParseSigLine(line).Some?
    ensures FormatSigLine(ParseSigLine(line).value) == line
    ensures ValidName(ParseSigLine(line).value.id.name)
  {
    var rest := line[|SIG_PREFIX|..];
    var sp := IndexSpace(rest);
    assert rest == rest[..sp] + [rest[sp], rest[sp + 1]];
    assert line == SIG_PREFIX + rest;
  }

  function ParseSigLines(ls: seq<Bytes>): Option<seq<SigLine>> {
    if ls == [] then Some([]) else
      match (ParseSigLine(ls[0]), ParseSigLines(ls[1..]))
      case (Some(l), Some(rest)) => Some([l] + rest)
      case _ => None
  }

  function FormatSigLines(ls: seq<SigLine>): (r: seq<Bytes>)
    ensures |r| == |ls|
    ensures forall i :: 0 <= i < |r| ==> r[i] == FormatSigLine(ls[i])
  {
    seq(|ls|, i requires 0 <= i < |ls| => FormatSigLine(ls[i]))
  }

  predicate WellFormed(ls: seq<SigLine>) {
    forall l :: l in ls ==> ValidName(l.id.name)
  }

  lemma {:induction false} ParseFormatSigLines(ls: seq<SigLine>)
    requires WellFormed(ls)
    ensures ParseSigLines(FormatSigLines(ls)) == Some(ls)
    ensures forall l :: l in FormatSigLines(ls) ==> OneLine(l) && l != []
  {
    forall l | l in ls ensures OneLine(FormatSigLine(l)) && FormatSigLine(l) != [] {
      ParseFormatSigLine(l);
    }
    if ls != [] {
      ParseFormatSigLine(ls[0]);
      ParseFormatSigLines(ls[1..]);
      assert FormatSigLines(ls)[1..] == FormatSigLines(ls[1..]);
      assert FormatSigLines(ls)[0] == FormatSigLine(ls[0]);
      assert ls == [ls[0]] + ls[1..];
    }
  }

  lemma {:induction false} FormatParseSigLines(ls: seq<Bytes>)
    requires ParseSigLines(ls).Some?
    ensures FormatSigLines(ParseSigLines(ls).value) == ls
    ensures WellFormed(ParseSigLines(ls).value)
  {
    if ls != [] {
      FormatParseSigLine(ls[0]);
      FormatParseSigLines(ls[1..]);
    }
  }

  // ------------------------------------------------------------- whole messages

  /** No control character other than newline. */
  predicate Clean(s: Bytes) {
    forall i :: 0 <= i < |s| && s[i].Byte? ==> s[i].b >= 32 || s[i].b == 10
  }

  /** The signature lines of the block after the blank line. */
  function ParseSigBlock(sigs: Bytes): Option<seq<SigLine>> {
    if sigs == [] || sigs[|sigs| - 1] != NL then None else
      var ls := SplitLines(sigs);
      ParseSigLines(ls[..|ls| - 1])
  }

  /** Text and signature lines of a message, as note.Open separates them. */
  function NoteParts(msg: Bytes): Option<(Bytes, seq<SigLine>)> {
    var i := LastBlank(msg);
    if !Clean(msg) || i < 0 then None else
      match ParseSigBlock(msg[i + 2..])
      case None => None
      case Some(lines) => Some((msg[..i + 1], lines))
  }

  /** The message with this text and these signature lines. */
  function Assemble(text: Bytes, lines: seq<SigLine>): Bytes {
    text + [NL] + JoinLines(FormatSigLines(lines))
  }

  lemma BlockIsJoined(sigs: Bytes)
    requires ParseSigBlock(sigs).Some?
    ensures var lines := ParseSigBlock(sigs).value;
            lines != [] && WellFormed(lines) && sigs == JoinLines(FormatSigLines(lines))
  {
    JoinSplit(sigs);
    var ls := SplitLines(sigs);
    FormatParseSigLines(ls[..|ls| - 1]);
  }

  /** Every message that note.Open can take apart is an assembled one. */
  lemma PartsAssemble(msg: Bytes)
    requires NoteParts(msg).Some?
    ensures var (text, lines) := NoteParts(msg).value;
            && msg == Assemble(text, lines)
            && text != [] && text[|text| - 1] == NL && Clean(text)
            && lines != [] && WellFormed(lines)
  {
    var i := LastBlank(msg);
    BlockIsJoined(msg[i + 2..]);
    assert msg == msg[..i + 1] + [NL] + msg[i + 2..];
  }

  lemma {:induction false} CleanLines(ls: seq<SigLine>)
    requires WellFormed(ls) && forall l :: l in ls ==> Clean(l.id.name)
    ensures Clean(JoinLines(FormatSigLines(ls)))
  {
    if ls != [] {
      assert ls[0] in ls;
      assert Clean(FormatSigLine(ls[0]));
      CleanLines(ls[1..]);
      assert FormatSigLines(ls)[1..] == FormatSigLines(ls[1..]);
    }
  }

  predicate CleanNames(lines: seq<SigLine>) {
    forall l :: l in lines ==> Clean(l.id.name)
  }

  lemma ParseJoinedBlock(lines: seq<SigLine>)
    requires lines != [] && WellFormed(lines)
    ensures ParseSigBlock(JoinLines(FormatSigLines(lines))) == Some(lines)
  {
    var fs := FormatSigLines(lines);
    ParseFormatSigLines(lines);
    JoinedEndsInNewline(fs);
    SplitJoin(fs);
    var ls := SplitLines(JoinLines(fs));
    assert ls[..|ls| - 1] == fs;
  }

  /** Assembling and taking apart are inverse. */
  lemma AssembleParts(text: Bytes, lines: seq<SigLine>)
    requires text != [] && text[|text| - 1] == NL && Clean(text)
    requires lines != [] && WellFormed(lines) && CleanNames(lines)
    ensures NoteParts(Assemble(text, lines)) == Some((text, lines))
  {
    var fs := FormatSigLines(lines);
    ParseFormatSigLines(lines);
    CleanAssembled(text, lines);
    LastBlankOfAssembled(text, fs);
    ParseJoinedBlock(lines);
    CutAfterBlank(text, JoinLines(fs));
  }

  lemma CutAfterBlank(text: Bytes, sigs: Bytes)
    ensures var msg := text + [NL] + sigs; msg[..|text|] == text && msg[|text| + 1..] == sigs
  {
  }

  lemma CleanAssembled(text: Bytes, lines: seq<SigLine>)
    requires Clean(text) && WellFormed(lines) && CleanNames(lines)
    ensures Clean(Assemble(text, lines))
  {
    CleanLines(lines);
  }

  lemma {:induction false} JoinedEndsInNewline(ls: seq<Bytes>)
    requires ls != []
    ensures JoinLines(ls) != [] && JoinLines(ls)[|JoinLines(ls)| - 1] == NL
  {
    if |ls| > 1 {
      JoinedEndsInNewline(ls[1..]);
    }
  }

  lemma LastBlankOfAssembled(text: Bytes, ls: seq<Bytes>)
    requires text != [] && text[|text| - 1] == NL
    requires forall l :: l in ls ==> OneLine(l) && l != []
    ensures LastBlank(text + [NL] + JoinLines(ls)) == |text| - 1
  {
    var msg := text + [NL] + JoinLines(ls);
    var tail := [NL] + JoinLines(ls);
    JoinedLinesHaveNoBlank(ls);
    assert BlankAt(msg, |text| - 1);
    forall j | j > |text| - 1 ensures !BlankAt(msg, j) {
      assert !BlankAt(tail, j - |text|);
      assert forall k :: 0 <= k < |tail| ==> msg[|text| + k] == tail[k];
    }
  }

  /** The names in a message that could be taken apart hold no control character. */
  lemma CleanNamesOfParts(msg: Bytes)
    requires NoteParts(msg).Some?
    ensures CleanNames(NoteParts(msg).value.1)
  {
    PartsAssemble(msg);
    var (text, lines) := NoteParts(msg).value;
    var sigs := JoinLines(FormatSigLines(lines));
    assert forall i :: 0 <= i < |sigs| ==> msg[|text| + 1 + i] == sigs[i];
    assert Clean(sigs);
    CleanNamesOfLines(lines);
  }

  lemma {:induction false} CleanNamesOfLines(lines: seq<SigLine>)
    requires Clean(JoinLines(FormatSigLines(lines)))
    ensures CleanNames(lines)
  {
    if lines != [] {
      var f := FormatSigLine(lines[0]);
      var s := JoinLines(FormatSigLines(lines));
      assert FormatSigLines(lines)[1..] == FormatSigLines(lines[1..]);
      var t := JoinLines(FormatSigLines(lines[1..]));
      assert s == f + [NL] + t;
      assert forall i :: 0 <= i < |t| ==> s[|f| + 1 + i] == t[i];
      assert forall i :: 0 <= i < |lines[0].id.name| ==> s[4 + i] == lines[0].id.name[i];
      CleanNamesOfLines(lines[1..]);
    }
  }

  /** The signature of every line is a symbol of the message. */
  lemma {:induction false} SignatureInLines(lines: seq<SigLine>, l: SigLine)
    requires l in lines
    ensures SigBlock(l.id.hash, l.sig) in JoinLines(FormatSigLines(lines))
  {
    assert FormatSigLines(lines)[1..] == FormatSigLines(lines[1..]);
    var f := FormatSigLine(lines[0]);
    if lines[0] == l {
      assert f[|f| - 1] == SigBlock(l.id.hash, l.sig);
      assert JoinLines(FormatSigLines(lines))[|f| - 1] == f[|f| - 1];
    } else {
      SignatureInLines(lines[1..], l);
    }
  }

  lemma SignatureInMessage(msg: Bytes, l: SigLine)
    requires NoteParts(msg).Some? && l in NoteParts(msg).value.1
    ensures SigBlock(l.id.hash, l.sig) in msg
  {
    PartsAssemble(msg);
    SignatureInLines(NoteParts(msg).value.1, l);
  }

  // ------------------------------------------------------------------ opening

  predicate DistinctIds(vs: seq<Verifier>) {
    forall i, j :: 0 <= i < j < |vs| ==> vs[i].id != vs[j].id
  }

  ghost predicate Known(vs: seq<Verifier>, id: KeyId) {
    exists v :: v in vs && v.id == id
  }

  function FindVerifier(vs: seq<Verifier>, id: KeyId): (r: Option<Verifier>)
    ensures r.Some? <==> Known(vs, id)
    ensures r.Some? ==> r.value in vs && r.value.id == id
  {
    if vs == [] then None
    else if vs[0].id == id then Some(vs[0])
    else
      var r := FindVerifier(vs[1..], id);
      assert r.None? ==> forall v :: v in vs ==> v == vs[0] || v in vs[1..];
      r
  }

  /** The first line claiming this key. */
  function FirstBy(lines: seq<SigLine>, id: KeyId): (r: Option<SigLine>)
    ensures r.Some? <==> exists l :: l in lines && l.id == id
    ensures r.Some? ==> r.value in lines && r.value.id == id
  {
    if lines == [] then None
    else if lines[0].id == id then Some(lines[0])
    else
      var r := FirstBy(lines[1..], id);
      assert r.None? ==> forall l :: l in lines ==> l == lines[0] || l in lines[1..];
      r
  }

  /** The first line of every known key that occurs, in order; later ones are dropped. */
  function VerifiedLines(lines: seq<SigLine>, known: seq<Verifier>, seen: set<KeyId>): seq<SigLine> {
    if lines == [] then []
    else if FindVerifier(known, lines[0].id).None? || lines[0].id in seen then
      VerifiedLines(lines[1..], known, seen)
    else
      [lines[0]] + VerifiedLines(lines[1..], known, seen + {lines[0].id})
  }

  /** Lines of unknown keys, identical repeats dropped. */
  function UnverifiedLines(lines: seq<SigLine>, known: seq<Verifier>, seen: set<SigLine>): seq<SigLine> {
    if lines == [] then []
    else if FindVerifier(known, lines[0].id).Some? || lines[0] in seen then
      UnverifiedLines(lines[1..], known, seen)
    else
      [lines[0]] + UnverifiedLines(lines[1..], known, seen + {lines[0]})
  }

  predicate AllVerify(text: Bytes, sigs: seq<SigLine>, known: seq<Verifier>) {
    forall l :: l in sigs ==>
      var v := FindVerifier(known, l.id);
      v.Some? && v.value.Verify(text, l.sig)
  }

  /** note.Open: None for every way in which it fails. */
  function NoteOpen(msg: Bytes, known: seq<Verifier>): Option<Note>
    requires DistinctIds(known)
  {
    match NoteParts(msg)
    case None => None
    case Some((text, lines)) =>
      if |lines| > MAX_SIGNATURES then None
      else OpenLines(text, lines, known)
  }

  function OpenLines(text: Bytes, lines: seq<SigLine>, known: seq<Verifier>): Option<Note> {
    var sigs := VerifiedLines(lines, known, {});
    if !AllVerify(text, sigs, known) || sigs == [] then None
    else Some(Note(text, sigs, UnverifiedLines(lines, known, {})))
  }

  /** How many signature lines a message has; 0 if it is not a note. */
  function LineCount(msg: Bytes): nat {
    match NoteParts(msg)
    case None => 0
    case Some((_, lines)) => |lines|
  }

  /** What note.Open checks apart from the cap on signature lines. */
  ghost predicate OpensUncapped(msg: Bytes, known: seq<Verifier>) {
    NoteParts(msg).Some? && OpenLines(NoteParts(msg).value.0, NoteParts(msg).value.1, known).Some?
  }

  lemma {:induction false} VerifiedAreFirst(lines: seq<SigLine>, known: seq<Verifier>, seen: set<KeyId>)
    ensures forall l :: l in VerifiedLines(lines, known, seen) <==>
              (Known(known, l.id) && l.id !in seen && FirstBy(lines, l.id) == Some(l))
  {
    if lines != [] {
      var h, t := lines[0], lines[1..];
      var take := Known(known, h.id) && h.id !in seen;
      var seen' := if take then seen + {h.id} else seen;
      VerifiedAreFirst(t, known, seen');
      forall l ensures l in VerifiedLines(lines, known, seen) <==>
          (Known(known, l.id) && l.id !in seen && FirstBy(lines, l.id) == Some(l))
      {
        if take {
          assert VerifiedLines(lines, known, seen) == [h] + VerifiedLines(t, known, seen');
        }
      }
    }
  }

  /**
    note.Open, line by line: it succeeds exactly when some known key occurs and
    the first line of every known key that occurs verifies.
  */
  lemma OpenLinesExactly(text: Bytes, lines: seq<SigLine>, known: seq<Verifier>)
    requires DistinctIds(known)
    ensures OpenLines(text, lines, known).Some? <==>
              && (exists v :: v in known && FirstBy(lines, v.id).Some?)
              && (forall v :: v in known && FirstBy(lines, v.id).Some? ==>
                    v.Verify(text, FirstBy(lines, v.id).value.sig))
    ensures OpenLines(text, lines, known).Some? ==>
              var n := OpenLines(text, lines, known).value;
              && n.text == text
              && (forall l :: l in n.sigs <==> Known(known, l.id) && FirstBy(lines, l.id) == Some(l))
  {
    VerifiedAreFirst(lines, known, {});
    var sigs := VerifiedLines(lines, known, {});
    forall v | v in known ensures FindVerifier(known, v.id) == Some(v) {
      var w := FindVerifier(known, v.id).value;
      var i :| 0 <= i < |known| && known[i] == v;
      var j :| 0 <= j < |known| && known[j] == w;
      assert i == j;
    }
    if sigs != [] {
      assert sigs[0] in sigs;
      var v :| v in known && v.id == sigs[0].id;
      assert FirstBy(lines, v.id).Some?;
    }
    forall v | v in known && FirstBy(lines, v.id).Some?
      ensures FirstBy(lines, v.id).value in sigs
    {
      assert Known(known, v.id);
    }
  }

  // ------------------------------------------------------------------ signing

  function DropBy(lines: seq<SigLine>, id: KeyId): (r: seq<SigLine>)
    ensures |r| <= |lines|
    ensures forall l :: l in r <==> l in lines && l.id != id
  {
    if lines == [] then []
    else if lines[0].id == id then DropBy(lines[1..], id)
    else [lines[0]] + DropBy(lines[1..], id)
  }

  /** The lines of a note after signing: the others first, then the new one. */
  function SignedLines(n: Note, s: Signer): seq<SigLine> {
    DropBy(n.sigs + n.unverified, s.id) + [SigLine(s.id, s.Sign(n.text))]
  }

  /** note.Sign with one signer. */
  function NoteSign(n: Note, s: Signer): Option<Bytes> {
    if n.text == [] || n.text[|n.text| - 1] != NL || !ValidName(s.id.name) || !WellFormed(n.sigs + n.unverified)
    then None
    else Some(Assemble(n.text, SignedLines(n, s)))
  }
}
