/** ctpp2_tmpltest: the checks a compiled CT++ template must pass before it is run. The
    template buffer starts with a VMExecutable header; the model keeps the header fields
    the test reads and the length of the buffer. The checks run in a fixed order and the
    first one that fails decides the answer. */
module TemplateHeader {
  import opened NgxCore

  /** The magic bytes 'C', 'T', 'P', 'P'. */
  const Magic: seq<byte> := [67, 84, 80, 80]

  /** The platform fingerprint written by a compiler of the same byte order. */
  const Platform: nat := 0x4142434445464748

  /** The bit pattern of the IEEE 754 double 1.5839800103804824e40 that a compiler
      with the same floating-point format stores in the header. For a finite nonzero
      constant, equality of doubles is equality of their bit patterns. */
  const Canary: nat := 0x4847464544434241

  /** The header fields of a compiled template: the four magic bytes, the first
      version byte, the platform fingerprint, the stored checksum and the canary. */
  datatype Executable = Executable(magic: seq<byte>, version: byte, platform: nat,
                                   crc: nat, canary: nat)

  /** Why a template is refused, or that it is accepted. */
  datatype Verdict = Accepted | NotCompiled | WrongPlatform | BadChecksum | BrokenFloat

  /** The verdict and the header as the test leaves it. */
  datatype Test = Test(verdict: Verdict, after: Executable)

  /** The length the checksum covers: tmpl->last - tmpl->pos stored in a UINT_32. */
  function CoveredLength(size: nat): (n: nat)
    ensures n < 0x1_0000_0000
    ensures size < 0x1_0000_0000 ==> n == size
  {
    size % 0x1_0000_0000
  }

  /** The four magic bytes are C, T, P, P. */
  predicate LooksCompiled(e: Executable)
  {
    e.magic == Magic
  }

  /** ctpp2_tmpltest on a buffer of `size` bytes whose header is `e`. `crc32(h, n)` is
      the checksum of the first n bytes of the buffer when its header reads h; the
      checksum function belongs to the template library and is not modelled. */
  function TmplTest(e: Executable, size: nat, check: bool, crc32: (Executable, nat) -> nat): (t: Test)
    ensures t.after == e || t.after == e.(crc := 0)
  {
    if LooksCompiled(e) then
      if e.version >= 1 then
        if e.platform == Platform then
          var e' := if check then e.(crc := 0) else e;
          if check && e.crc != crc32(e', CoveredLength(size)) then Test(BadChecksum, e')
          else if e.canary != Canary then Test(BrokenFloat, e')
          else Test(Accepted, e')
        else
          Test(WrongPlatform, e)
      else
        Test(Accepted, e)
    else
      Test(NotCompiled, e)
  }

  /** The return code of ctpp2_tmpltest: NGX_OK for an accepted template, NGX_ERROR
      otherwise. */
  function TmplTestRc(t: Test): (rc: Rc)
    ensures rc == Ok || rc == Error
    ensures rc == Ok <==> t.verdict == Accepted
  {
    if t.verdict == Accepted then Ok else Error
  }

  /** The template's checksum is right: the stored crc equals the checksum of the
      covered bytes once the crc field itself reads zero. */
  predicate ChecksumHolds(e: Executable, size: nat, crc32: (Executable, nat) -> nat)
  {
    e.crc == crc32(e.(crc := 0), CoveredLength(size))
  }

  /** The acceptance condition in one formula: compiled, and either an old version or
      the right platform, a right checksum when checking is on, and the right canary. */
  predicate Acceptable(e: Executable, size: nat, check: bool, crc32: (Executable, nat) -> nat)
  {
    LooksCompiled(e) &&
    (e.version < 1 ||
     (e.platform == Platform && (check ==> ChecksumHolds(e, size, crc32)) && e.canary == Canary))
  }

  /** The test accepts exactly the acceptable templates. */
  lemma AcceptsExactly(e: Executable, size: nat, check: bool, crc32: (Executable, nat) -> nat)
    ensures TmplTest(e, size, check, crc32).verdict == Accepted <==> Acceptable(e, size, check, crc32)
  {
  }

  /** Without the magic bytes nothing else is looked at: the answer depends on no other
      field, on no flag and on no checksum, and nothing is written. */
  lemma MagicFirst(e: Executable, size: nat, check: bool, crc32: (Executable, nat) -> nat,
                   f: Executable, size': nat, check': bool, crc32': (Executable, nat) -> nat)
    requires !LooksCompiled(e) && f.magic == e.magic
    ensures TmplTest(e, size, check, crc32) == Test(NotCompiled, e)
    ensures TmplTest(f, size', check', crc32').verdict == NotCompiled
  {
  }

  /** A compiled template of version 0 is accepted with no other check. */
  lemma OldVersionAccepted(e: Executable, size: nat, check: bool, crc32: (Executable, nat) -> nat)
    requires LooksCompiled(e) && e.version < 1
    ensures TmplTest(e, size, check, crc32) == Test(Accepted, e)
  {
  }

  /** A foreign platform is refused whatever the checking flag, before any checksum
      work: the header is left as it was. */
  lemma PlatformBeforeChecksum(e: Executable, size: nat, check: bool, crc32: (Executable, nat) -> nat)
    requires LooksCompiled(e) && e.version >= 1 && e.platform != Platform
    ensures TmplTest(e, size, check, crc32) == Test(WrongPlatform, e)
  {
  }

  /** With checking on (and the earlier checks passed), the crc field reads zero
      afterwards and a wrong checksum is refused whatever the canary; with checking
      off, the crc field is neither read nor written. */
  lemma ChecksumStep(e: Executable, size: nat, check: bool, crc32: (Executable, nat) -> nat,
                     other: nat)
    requires LooksCompiled(e) && e.version >= 1 && e.platform == Platform
    ensures check ==> TmplTest(e, size, check, crc32).after.crc == 0
    ensures check && !ChecksumHolds(e, size, crc32) ==>
              TmplTest(e, size, check, crc32).verdict == BadChecksum
    ensures !check ==> TmplTest(e, size, check, crc32).after == e
    ensures !check ==> TmplTest(e.(crc := other), size, check, crc32).verdict ==
                       TmplTest(e, size, check, crc32).verdict
  {
  }

  /** The canary is checked last: once everything before it has passed, the canary
      alone decides. */
  lemma CanaryLast(e: Executable, size: nat, check: bool, crc32: (Executable, nat) -> nat)
    requires LooksCompiled(e) && e.version >= 1 && e.platform == Platform
    requires check ==> ChecksumHolds(e, size, crc32)
    ensures TmplTest(e, size, check, crc32).verdict == if e.canary == Canary then Accepted else BrokenFloat
  {
  }
}
