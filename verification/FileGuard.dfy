/** The types both sides of the driver interface share: integer widths, rule codes and
    rules, with the sizes and field offsets the compiler gives the shared structures.
    (Include/FileGuard.h) */
module FileGuard {

  type Byte = x: int | 0 <= x < 0x100
  type Ushort = x: int | 0 <= x < 0x1_0000
  type Ulong = x: int | 0 <= x < 0x1_0000_0000
  type Ulonglong = x: int | 0 <= x < 0x1_0000_0000_0000_0000
  type Wchar = Ushort

  const ULONG_MODULUS := 0x1_0000_0000
  const LONG_MAX := 0x7FFF_FFFF

  /** A counted wide string: its byte length has to fit a USHORT. */
  type UnicodeString = s: seq<Wchar> | |s| <= 32767

  // FG_RULE: Code at 0, PathExpressionSize at 4, PathExpression at 6, padded to 8 bytes.
  const RULE_PAYLOAD_OFFSET := 6
  const SIZEOF_RULE := 8

  // FG_MESSAGE: Type, MessageSize, RulesAmount (at 8), RulesSize (at 12), Rules (at 16).
  const SIZEOF_MESSAGE := 16

  // FG_MESSAGE_RESULT: ResultCode, ResultSize, RulesAmount, RulesSize, RulesBuffer (at 16).
  const SIZEOF_RESULT := 16

  /** The sizes, offsets and widths of the shared header. */
  lemma SharedNumbers()
    ensures RULE_PAYLOAD_OFFSET == 6 && SIZEOF_RULE == 8 && SIZEOF_MESSAGE == 16 && SIZEOF_RESULT == 16
    ensures ULONG_MODULUS == 4294967296 && LONG_MAX == 2147483647
  {
  }

  /** FG_RULE_CODE: two USHORT halves of one LONG; equal values are equal pairs. */
  datatype RuleCode = RuleCode(minor: Ushort, major: Ushort)

  const RULE_MAJOR_ACCESS_DENIED: Ushort := 1
  const RULE_MAJOR_READONLY: Ushort := 2
  const RULE_MAJOR_MAXIMUM: Ushort := 3
  const RULE_MINOR_MONITORED: Ushort := 1
  const RULE_MINOR_MAXIMUM: Ushort := 2

  predicate ValidRuleCode(c: RuleCode) {
    && 0 < c.major < RULE_MAJOR_MAXIMUM
    && 0 < c.minor < RULE_MINOR_MAXIMUM
  }

  /** The codes the driver accepts are monitored rules that deny access or allow reading. */
  lemma ValidCodes(c: RuleCode)
    ensures ValidRuleCode(c) <==> c == RuleCode(1, 1) || c == RuleCode(1, 2)
    ensures ValidRuleCode(c) && c.major == RULE_MAJOR_ACCESS_DENIED <==> c == RuleCode(1, 1)
    ensures ValidRuleCode(c) && c.major == RULE_MAJOR_READONLY <==> c == RuleCode(1, 2)
    ensures ValidRuleCode(c) ==> c.minor == RULE_MINOR_MONITORED
  {
  }

  datatype Rule = Rule(code: RuleCode, expr: UnicodeString)

  /** The statuses the modelled routines tell apart. */
  datatype Status =
    | Success
    | BufferTooSmall
    | NotFound
    | InvalidParameter
    | InsufficientResources
    | NoMoreEntries
    | Unsuccessful
    | DeviceRemoved
    | PortDisconnected
    | ContextAlreadyDefined
    | OtherFailure

  /** What the operating system supplies: the upcase table, which is applied to one
      character at a time and is idempotent, and the wildcard matcher of
      FsRtlIsNameInExpression, about which nothing is known. */
  datatype RuntimeTables = RuntimeTables(
    up: Wchar -> Wchar,
    matches: (UnicodeString, UnicodeString) -> bool)

  ghost predicate Idempotent(t: RuntimeTables) {
    forall c: Wchar :: t.up(t.up(c)) == t.up(c)
  }

  type Runtime = t: RuntimeTables | Idempotent(t)
    ghost witness RuntimeTables((c: Wchar) => c, (e: UnicodeString, n: UnicodeString) => false)

  /** RtlUpcaseUnicodeString: every character is looked up in the upcase table. */
  function Upcase(nt: Runtime, s: UnicodeString): (u: UnicodeString)
    ensures |u| == |s| && forall i :: 0 <= i < |s| ==> u[i] == nt.up(s[i])
  {
    var u := seq<Wchar>(|s|, (i: int) requires 0 <= i < |s| => nt.up(s[i]));
    u
  }

  lemma UpcaseIdempotent(nt: Runtime, s: UnicodeString)
    ensures Upcase(nt, Upcase(nt, s)) == Upcase(nt, s)
  {
    var u := Upcase(nt, s);
    forall i | 0 <= i < |s| ensures nt.up(u[i]) == u[i] {
      assert nt.up(nt.up(s[i])) == nt.up(s[i]);
    }
  }
}
