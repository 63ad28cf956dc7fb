/**
 * The logic of the single-page front end: status labels, the phone and
 * CPF/CNPJ input masks, the pagination bar, the create-form check and the
 * page/filter state the list view keeps.
 */
module Frontend {
  import opened DateTimes
  import CobrancaModel

  /** The Portuguese label of a status; any other text is shown as it is. */
  function StatusText(status: string): string {
    match status
    case "pending" => "Pendente"
    case "approved" => "Aprovado"
    case "rejected" => "Rejeitado"
    case "cancelled" => "Cancelado"
    case "in_process" => "Processando"
    case _ => status
  }

  /**
   * The statuses that get a label are exactly the record's known statuses;
   * every other status is shown unchanged.
   */
  lemma StatusTextLabels(status: string)
    ensures StatusText(status) == status <==> status !in CobrancaModel.KnownStatuses
    ensures status in CobrancaModel.KnownStatuses ==>
      StatusText(status) in {"Pendente", "Aprovado", "Rejeitado", "Cancelado", "Processando"}
  {
  }

  /** No two known statuses share a label. */
  lemma StatusTextInjective(s: string, t: string)
    requires s in CobrancaModel.KnownStatuses && t in CobrancaModel.KnownStatuses
    requires StatusText(s) == StatusText(t)
    ensures s == t
  {
  }

  /** `\d`: an ASCII digit. */
  predicate IsDigit(c: char) {
    '0' <= c <= '9'
  }

  predicate AllDigits(s: string) {
    forall k :: 0 <= k < |s| ==> IsDigit(s[k])
  }

  /** `value.replace(/\D/g, '')`: the digits of the text, in order. */
  function Digits(s: string): (d: string)
    ensures AllDigits(d)
    ensures |d| <= |s|
  {
    if s == [] then []
    else (if IsDigit(s[0]) then [s[0]] else []) + Digits(s[1..])
  }

  /** Every digit of the text is kept as often as it occurs, and nothing else is. */
  lemma {:induction false} DigitsCount(s: string)
    ensures forall c :: multiset(Digits(s))[c] == if IsDigit(c) then multiset(s)[c] else 0
    decreases |s|
  {
    if s != [] {
      assert s == [s[0]] + s[1..];
      DigitsCount(s[1..]);
    }
  }

  /** Digit stripping works piecewise, so the kept digits stay in the text's order. */
  lemma {:induction false} DigitsConcat(a: string, b: string)
    ensures Digits(a + b) == Digits(a) + Digits(b)
  {
    if a != [] {
      assert (a + b)[1..] == a[1..] + b;
      DigitsConcat(a[1..], b);
    } else {
      assert a + b == b;
    }
  }

  /** A text of digits only is left as it is. */
  lemma {:induction false} DigitsOfDigits(d: string)
    requires AllDigits(d)
    ensures Digits(d) == d
  {
    if d != [] {
      DigitsOfDigits(d[1..]);
    }
  }

  /** `(\d{2})(\d{5})(\d{4})` replaced by `($1) $2-$3`, on a digit string long enough to match. */
  function MobileFormat(d: string): string
    requires |d| >= 11
  {
    "(" + d[..2] + ") " + d[2..7] + "-" + d[7..11] + d[11..]
  }

  /** `(\d{2})(\d{4})(\d{4})` replaced by `($1) $2-$3`. */
  function LandlineFormat(d: string): string
    requires |d| >= 10
  {
    "(" + d[..2] + ") " + d[2..6] + "-" + d[6..10] + d[10..]
  }

  /**
   * The phone mask as the input handler applies it: on at most 11 digits,
   * the 11-digit pattern, then, while the text is shorter than 14, the
   * 10-digit one. An unanchored digit pattern matches a digit string
   * exactly when the string is at least as long as the pattern.
   */
  function PhoneMask(value: string): string {
    var d := Digits(value);
    if |d| <= 11 then
      var v := if |d| >= 11 then MobileFormat(d) else d;
      if |v| < 14 then (if |v| >= 10 then LandlineFormat(v) else v) else v
    else d
  }

  /** `(\d{3})(\d{3})(\d{3})(\d{2})` replaced by `$1.$2.$3-$4`. */
  function CpfFormat(d: string): string
    requires |d| >= 11
  {
    d[..3] + "." + d[3..6] + "." + d[6..9] + "-" + d[9..11] + d[11..]
  }

  /** `(\d{2})(\d{3})(\d{3})(\d{4})(\d{2})` replaced by `$1.$2.$3/$4-$5`; later digits stay after it. */
  function CnpjFormat(d: string): string
    requires |d| >= 14
  {
    d[..2] + "." + d[2..5] + "." + d[5..8] + "/" + d[8..12] + "-" + d[12..14] + d[14..]
  }

  /** The CPF/CNPJ mask: the CPF pattern on at most 11 digits, the CNPJ pattern on more. */
  function DocumentMask(value: string): string {
    var d := Digits(value);
    if |d| <= 11 then (if |d| >= 11 then CpfFormat(d) else d)
    else (if |d| >= 14 then CnpjFormat(d) else d)
  }

  /** The phone mask by digit count: 11 digits as a mobile number, 10 as a landline, anything else as bare digits. */
  lemma PhoneMaskCases(value: string)
    ensures var d := Digits(value);
      && (|d| == 11 ==> PhoneMask(value) == "(" + d[..2] + ") " + d[2..7] + "-" + d[7..])
      && (|d| == 10 ==> PhoneMask(value) == "(" + d[..2] + ") " + d[2..6] + "-" + d[6..])
      && (|d| != 10 && |d| != 11 ==> PhoneMask(value) == d)
  {
    var d := Digits(value);
    if |d| == 11 {
      assert |MobileFormat(d)| == 15;
    }
  }

  /** The document mask by digit count: 11 digits as a CPF, 14 or more as a CNPJ followed by the extra digits, anything else as bare digits. */
  lemma DocumentMaskCases(value: string)
    ensures var d := Digits(value);
      && (|d| == 11 ==> DocumentMask(value) == d[..3] + "." + d[3..6] + "." + d[6..9] + "-" + d[9..])
      && (|d| >= 14 ==> DocumentMask(value) == d[..2] + "." + d[2..5] + "." + d[5..8] + "/" + d[8..12] + "-" + d[12..14] + d[14..])
      && (|d| < 11 || |d| == 12 || |d| == 13 ==> DocumentMask(value) == d)
  {
  }

  /** Appending digits appends them to the digits. */
  lemma DigitsAppend(x: string, y: string)
    requires AllDigits(y)
    ensures Digits(x + y) == Digits(x) + y
  {
    DigitsConcat(x, y);
    DigitsOfDigits(y);
  }

  /** Appending punctuation adds no digits. */
  lemma PunctuationAppend(x: string, p: string)
    requires Digits(p) == []
    ensures Digits(x + p) == Digits(x)
  {
    DigitsConcat(x, p);
  }

  /** Adjacent slices join into the longer prefix. */
  lemma SliceJoin<T>(s: seq<T>, i: nat, j: nat)
    requires i <= j <= |s|
    ensures s[..i] + s[i..j] == s[..j]
  {
  }

  /** A prefix and the rest make the whole. */
  lemma SliceRest<T>(s: seq<T>, i: nat)
    requires i <= |s|
    ensures s[..i] + s[i..] == s
  {
  }

  /** The mobile pattern's digits are the digits it was given. */
  lemma MobileFormatDigits(d: string)
    requires AllDigits(d) && |d| >= 11
    ensures Digits(MobileFormat(d)) == d
  {
    DigitsAppend("", d[..2]);
    PunctuationAppend("(" + d[..2], ") ");
    DigitsAppend("(" + d[..2] + ") ", d[2..7]);
    PunctuationAppend("(" + d[..2] + ") " + d[2..7], "-");
    DigitsAppend("(" + d[..2] + ") " + d[2..7] + "-", d[7..11]);
    DigitsAppend("(" + d[..2] + ") " + d[2..7] + "-" + d[7..11], d[11..]);
    assert "" + d[..2] == d[..2];
    SliceJoin(d, 2, 7);
    SliceJoin(d, 7, 11);
    SliceRest(d, 11);
  }

  /** The landline pattern's digits are the digits it was given. */
  lemma LandlineFormatDigits(d: string)
    requires AllDigits(d) && |d| >= 10
    ensures Digits(LandlineFormat(d)) == d
  {
    PunctuationAppend("(" + d[..2], ") ");
    DigitsAppend("(", d[..2]);
    DigitsAppend("(" + d[..2] + ") ", d[2..6]);
    PunctuationAppend("(" + d[..2] + ") " + d[2..6], "-");
    DigitsAppend("(" + d[..2] + ") " + d[2..6] + "-", d[6..10]);
    DigitsAppend("(" + d[..2] + ") " + d[2..6] + "-" + d[6..10], d[10..]);
    SliceJoin(d, 2, 6);
    SliceJoin(d, 6, 10);
    SliceRest(d, 10);
  }

  /** The CPF pattern's digits are the digits it was given. */
  lemma CpfFormatDigits(d: string)
    requires AllDigits(d) && |d| >= 11
    ensures Digits(CpfFormat(d)) == d
  {
    DigitsOfDigits(d[..3]);
    PunctuationAppend(d[..3], ".");
    DigitsAppend(d[..3] + ".", d[3..6]);
    PunctuationAppend(d[..3] + "." + d[3..6], ".");
    DigitsAppend(d[..3] + "." + d[3..6] + ".", d[6..9]);
    PunctuationAppend(d[..3] + "." + d[3..6] + "." + d[6..9], "-");
    DigitsAppend(d[..3] + "." + d[3..6] + "." + d[6..9] + "-", d[9..11]);
    DigitsAppend(d[..3] + "." + d[3..6] + "." + d[6..9] + "-" + d[9..11], d[11..]);
    SliceJoin(d, 3, 6);
    SliceJoin(d, 6, 9);
    SliceJoin(d, 9, 11);
    SliceRest(d, 11);
  }

  /** The CNPJ pattern's digits are the digits it was given. */
  lemma CnpjFormatDigits(d: string)
    requires AllDigits(d) && |d| >= 14
    ensures Digits(CnpjFormat(d)) == d
  {
    var s1 := d[..2] + ".";
    var s2 := s1 + d[2..5] + ".";
    var s3 := s2 + d[5..8] + "/";
    var s4 := s3 + d[8..12] + "-";
    DigitsOfDigits(d[..2]);
    PunctuationAppend(d[..2], ".");
    DigitsAppend(s1, d[2..5]);
    PunctuationAppend(s1 + d[2..5], ".");
    DigitsAppend(s2, d[5..8]);
    PunctuationAppend(s2 + d[5..8], "/");
    DigitsAppend(s3, d[8..12]);
    PunctuationAppend(s3 + d[8..12], "-");
    DigitsAppend(s4, d[12..14]);
    DigitsAppend(s4 + d[12..14], d[14..]);
    assert CnpjFormat(d) == s4 + d[12..14] + d[14..];
    SliceJoin(d, 2, 5);
    SliceJoin(d, 5, 8);
    SliceJoin(d, 8, 12);
    SliceJoin(d, 12, 14);
    SliceRest(d, 14);
  }

  /** A mask keeps the digits: its punctuation holds none. */
  lemma PhoneMaskDigits(value: string)
    ensures Digits(PhoneMask(value)) == Digits(value)
  {
    var d := Digits(value);
    if |d| == 11 {
      MobileFormatDigits(d);
      assert |MobileFormat(d)| == 15;
    } else if |d| == 10 {
      LandlineFormatDigits(d);
    } else {
      DigitsOfDigits(d);
    }
  }

  lemma DocumentMaskDigits(value: string)
    ensures Digits(DocumentMask(value)) == Digits(value)
  {
    var d := Digits(value);
    if |d| == 11 {
      CpfFormatDigits(d);
    } else if |d| >= 14 {
      CnpjFormatDigits(d);
    } else {
      DigitsOfDigits(d);
    }
  }

  /** Masking masked text changes nothing. */
  lemma PhoneMaskIdempotent(value: string)
    ensures PhoneMask(PhoneMask(value)) == PhoneMask(value)
  {
    PhoneMaskDigits(value);
  }

  lemma DocumentMaskIdempotent(value: string)
    ensures DocumentMask(DocumentMask(value)) == DocumentMask(value)
  {
    DocumentMaskDigits(value);
  }

  /** What a pagination button is for. */
  datatype Control = First | Previous | PageNumber(n: int) | Next | Last

  /** One rendered button: the page it loads, whether it is disabled and whether it is the current page. */
  datatype PageButton = PageButton(control: Control, target: int, disabled: bool, active: bool)

  function WindowStart(cur: int): int {
    if cur - 2 > 1 then cur - 2 else 1
  }

  function WindowEnd(cur: int, total: int): int {
    if cur + 2 < total then cur + 2 else total
  }

  /** The numbered pages, from `max(1, cur-2)` to `min(total, cur+2)`. */
  function PageWindow(cur: int, total: int): (pages: seq<int>)
    ensures |pages| == if WindowEnd(cur, total) >= WindowStart(cur) then WindowEnd(cur, total) - WindowStart(cur) + 1 else 0
    ensures forall k :: 0 <= k < |pages| ==> pages[k] == WindowStart(cur) + k
  {
    var n := WindowEnd(cur, total) - WindowStart(cur) + 1;
    seq(if n > 0 then n else 0, k => WindowStart(cur) + k)
  }

  /**
   * The window holds at most five pages, all of them real pages, and it
   * holds the current page whenever the current page is one.
   */
  lemma PageWindowBounds(cur: int, total: int)
    ensures |PageWindow(cur, total)| <= 5
    ensures forall p :: p in PageWindow(cur, total) ==> 1 <= p <= total
    ensures 1 <= cur <= total ==> cur in PageWindow(cur, total)
  {
    var w := PageWindow(cur, total);
    forall p | p in w ensures 1 <= p <= total {
      var k :| 0 <= k < |w| && w[k] == p;
    }
    if 1 <= cur <= total {
      assert w[cur - WindowStart(cur)] == cur;
    }
  }

  /** The numbered buttons: the current page is the active one. */
  function PageButtons(cur: int, total: int): (bs: seq<PageButton>)
    ensures |bs| == |PageWindow(cur, total)|
  {
    var w := PageWindow(cur, total);
    seq(|w|, k requires 0 <= k < |w| => PageButton(PageNumber(w[k]), w[k], false, w[k] == cur))
  }

  /** A prefix one longer is the prefix and the next element. */
  lemma PrefixExtend<T>(s: seq<T>, n: nat)
    requires n < |s|
    ensures s[..n + 1] == s[..n] + [s[n]]
  {
  }

  /** The numbered button for page `i` of the window sits at its offset from the window's start. */
  lemma NumberedButtonAt(cur: int, total: int, i: int)
    requires WindowStart(cur) <= i <= WindowEnd(cur, total)
    ensures i - WindowStart(cur) < |PageButtons(cur, total)|
    ensures PageButtons(cur, total)[i - WindowStart(cur)] == PageButton(PageNumber(i), i, false, i == cur)
  {
    assert PageWindow(cur, total)[i - WindowStart(cur)] == i;
  }

  /** Exactly one numbered button is active when the current page is a real page, none otherwise. */
  lemma OneActivePage(cur: int, total: int)
    ensures var bs := PageButtons(cur, total);
      (1 <= cur <= total ==> exists k :: 0 <= k < |bs| && bs[k].active && forall j :: 0 <= j < |bs| && j != k ==> !bs[j].active)
      && (!(1 <= cur <= total) ==> forall j :: 0 <= j < |bs| ==> !bs[j].active)
  {
    var bs := PageButtons(cur, total);
    var w := PageWindow(cur, total);
    PageWindowBounds(cur, total);
    if 1 <= cur <= total {
      var k := cur - WindowStart(cur);
      assert w[k] == cur;
      assert bs[k].active;
    } else {
      forall j | 0 <= j < |bs| ensures !bs[j].active {
        assert w[j] in w;
      }
    }
  }

  /**
   * The pagination bar: nothing for a single page; otherwise first and
   * previous (disabled on page 1), the window of page numbers, then next
   * and last (disabled on the last page).
   */
  method DisplayPagination(cur: int, total: int) returns (buttons: seq<PageButton>)
    ensures total <= 1 ==> buttons == []
    ensures total > 1 ==>
      buttons == [PageButton(First, 1, cur == 1, false), PageButton(Previous, cur - 1, cur == 1, false)]
                 + PageButtons(cur, total)
                 + [PageButton(Next, cur + 1, cur == total, false), PageButton(Last, total, cur == total, false)]
  {
    if total <= 1 {
      return [];
    }
    var leading := [PageButton(First, 1, cur == 1, false), PageButton(Previous, cur - 1, cur == 1, false)];
    buttons := leading;
    var startPage := if cur - 2 > 1 then cur - 2 else 1;
    var endPage := if cur + 2 < total then cur + 2 else total;
    var i := startPage;
    ghost var numbered := PageButtons(cur, total);
    while i <= endPage
      invariant 0 <= i - startPage <= |numbered|
      invariant i <= endPage + 1 || i == startPage
      invariant buttons == leading + numbered[..i - startPage]
      decreases endPage + 1 - i
    {
      NumberedButtonAt(cur, total, i);
      PrefixExtend(numbered, i - startPage);
      buttons := buttons + [PageButton(PageNumber(i), i, false, i == cur)];
      i := i + 1;
    }
    assert numbered[..i - startPage] == numbered;
    buttons := buttons + [PageButton(Next, cur + 1, cur == total, false), PageButton(Last, total, cur == total, false)];
  }

  /** The fields the create form must fill. */
  const RequiredFormFields: seq<string> := ["cliente_nome", "cliente_email", "titulo", "valor"]

  /** The submission is refused when any required field is absent or empty. */
  predicate FormRejected(data: map<string, string>) {
    exists f :: f in RequiredFormFields && (f !in data || data[f] == "")
  }

  /** A form with every required field filled is accepted; optional fields do not matter. */
  lemma FormAcceptedIff(data: map<string, string>)
    ensures !FormRejected(data) <==>
      && "cliente_nome" in data && data["cliente_nome"] != ""
      && "cliente_email" in data && data["cliente_email"] != ""
      && "titulo" in data && data["titulo"] != ""
      && "valor" in data && data["valor"] != ""
  {
    if !FormRejected(data) {
      assert RequiredFormFields[0] in RequiredFormFields;
      assert RequiredFormFields[1] in RequiredFormFields;
      assert RequiredFormFields[2] in RequiredFormFields;
      assert RequiredFormFields[3] in RequiredFormFields;
    }
  }

  /** The list request for a page, with the status filter when one is chosen. */
  function ListUrl(page: nat, filter: string): string {
    "/api/cobrancas?page=" + Decimal(page) + "&per_page=10" + (if filter != "" then "&status=" + filter else "")
  }

  /** The page and the status filter the list view keeps between requests. */
  class ListView {
    var currentPage: int
    var currentFilter: string

    constructor ()
      ensures currentPage == 1 && currentFilter == ""
    {
      currentPage := 1;
      currentFilter := "";
    }

    /** A new filter chosen: it is kept, the page goes back to 1, and page 1 of the filtered list is requested. */
    method OnFilterChange(value: string) returns (url: string)
      modifies this
      ensures currentFilter == value && currentPage == 1
      ensures url == ListUrl(1, value)
    {
      currentFilter := value;
      currentPage := 1;
      url := ListUrl(1, currentFilter);
    }
  }
}
