/** The labels of reference slots: a word for the kind of medium and the number of
    the slot. */
module MediaLabels {
  import opened CanvasRefs

  /** Decimal digits, as Python prints a non-negative integer. */
  function Decimal(n: nat): string {
    if n < 10 then [DIGITS[n]] else Decimal(n / 10) + [DIGITS[n % 10]]
  }

  const DIGITS := "0123456789"

  function TypeLabel(kind: Kind): string {
    match kind
    case ImageKind => "图片"
    case VideoKind => "视频"
    case AudioKind => "音频"
    case TextKind => "文本"
  }

  function MediaLabel(kind: Kind, slot: int): string {
    TypeLabel(kind) + if slot >= 0 then Decimal(slot) else "-" + Decimal(-slot)
  }

  function Digit(c: char): int {
    c as int - '0' as int
  }

  /** Reading digits from left to right. */
  function Number(s: string): int {
    if s == "" then 0 else 10 * Number(s[..|s| - 1]) + Digit(s[|s| - 1])
  }

  lemma {:induction false} DecimalReads(n: nat)
    ensures Decimal(n) != "" && Number(Decimal(n)) == n && (n > 0 ==> Decimal(n)[0] != '0')
  {
    var s := Decimal(n);
    assert forall d :: 0 <= d < 10 ==> Digit(DIGITS[d]) == d;
    if n < 10 {
      assert s[..0] == "";
    } else {
      DecimalReads(n / 10);
      assert s[..|s| - 1] == Decimal(n / 10);
    }
  }

  /** A slot's label is the word for its medium and the slot number in decimal. */
  lemma LabelIsExact(kind: Kind, slot: nat)
    ensures var words := MediaLabel(kind, slot);
            && |words| > 2 && Number(words[2..]) == slot && (slot > 0 ==> words[2] != '0')
            && words[..2] == (match kind
                              case TextKind => "文本" case ImageKind => "图片"
                              case VideoKind => "视频" case AudioKind => "音频")
  {
    LabelTail(kind, slot);
    DecimalReads(slot);
    hide Decimal, Number;
  }

  lemma DecimalIsInjective(m: nat, n: nat)
    requires Decimal(m) == Decimal(n)
    ensures m == n
  {
    hide Decimal, Number;
    DecimalReads(m);
    DecimalReads(n);
  }

  /** A label determines its slot, whatever the kinds. */
  lemma LabelGivesSlot(k1: Kind, s1: int, k2: Kind, s2: int)
    requires s1 >= 0 && s2 >= 0 && MediaLabel(k1, s1) == MediaLabel(k2, s2)
    ensures s1 == s2
  {
    LabelTail(k1, s1);
    LabelTail(k2, s2);
    hide MediaLabel, Decimal;
    DecimalIsInjective(s1, s2);
  }

  lemma LabelTail(kind: Kind, slot: nat)
    ensures |MediaLabel(kind, slot)| >= 2 && MediaLabel(kind, slot)[2..] == Decimal(slot)
    ensures MediaLabel(kind, slot)[..2] == TypeLabel(kind)
  {
    hide Decimal;
  }
}
