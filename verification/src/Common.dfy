/** Vocabulary shared by every part of the model. */
module Common {

  datatype Option<+T> = None | Some(value: T) {

    /** The encapsulated value, or a default. */
    function GetOr(default: T): T {
      match this
      case Some(v) => v
      case None => default
    }
  }

  newtype byte = b: int | 0 <= b < 256

  /** A 32-byte order identifier. */
  type OrderId = id: seq<byte> | |id| == 32 witness seq(32, _ => 0 as byte)

  /** The Unicode White_Space characters, which Rust's `trim` removes. */
  predicate IsWhitespace(c: char) {
    || '\U{0009}' <= c <= '\U{000D}'
    || c == ' '
    || c == '\U{0085}'
    || c == '\U{00A0}'
    || c == '\U{1680}'
    || '\U{2000}' <= c <= '\U{200A}'
    || c == '\U{2028}'
    || c == '\U{2029}'
    || c == '\U{202F}'
    || c == '\U{205F}'
    || c == '\U{3000}'
  }

  /** The same characters, one by one. */
  const WHITE_SPACE: set<char> := {
    '\t', '\n', '\U{000B}', '\U{000C}', '\r', ' ', '\U{0085}', '\U{00A0}', '\U{1680}',
    '\U{2000}', '\U{2001}', '\U{2002}', '\U{2003}', '\U{2004}', '\U{2005}', '\U{2006}', '\U{2007}',
    '\U{2008}', '\U{2009}', '\U{200A}', '\U{2028}', '\U{2029}', '\U{202F}', '\U{205F}', '\U{3000}' }

  /** A text is blank exactly if none of its characters is visible. */
  lemma BlankIff(s: string)
    ensures IsBlank(s) <==> forall c | c in s :: c in WHITE_SPACE
  {
    if forall c | c in s :: c in WHITE_SPACE {
      forall i | 0 <= i < |s| ensures IsWhitespace(s[i]) {
        assert s[i] in s;
      }
    }
  }

  /** `s.trim().is_empty()`: nothing but white space. */
  predicate IsBlank(s: string) {
    forall i | 0 <= i < |s| :: IsWhitespace(s[i])
  }

  /** A 'T' somewhere, and a zone: a final 'Z', or a '+' or '-' anywhere. */
  predicate LooksLikeRfc3339(s: string) {
    'T' in s && (s[|s| - 1] == 'Z' || '+' in s || '-' in s)
  }

  lemma Associative<T>(a: seq<T>, b: seq<T>, c: seq<T>)
    ensures a + (b + c) == (a + b) + c
  {
  }

  /** Decimal digits of a natural number. */
  function Decimal(n: nat): (s: string)
    ensures |s| > 0
  {
    var digit := ['0' + (n % 10) as char];
    if n < 10 then digit else Decimal(n / 10) + digit
  }

  /** What a text of decimal digits stands for. */
  function DecimalValue(s: string): int {
    if s == "" then 0 else DecimalValue(s[..|s| - 1]) * 10 + (s[|s| - 1] as int - '0' as int)
  }

  /** The digits of a number stand for it, with no zero in front. */
  lemma {:induction false} DecimalStandsFor(n: nat)
    ensures DecimalValue(Decimal(n)) == n
    ensures forall i | 0 <= i < |Decimal(n)| :: '0' <= Decimal(n)[i] <= '9'
    ensures n > 0 ==> Decimal(n)[0] != '0'
  {
    var digit := ['0' + (n % 10) as char];
    if n < 10 {
      assert DecimalValue(digit) == DecimalValue("") * 10 + n;
    } else {
      DecimalStandsFor(n / 10);
      assert Decimal(n)[..|Decimal(n)| - 1] == Decimal(n / 10);
    }
  }
}
