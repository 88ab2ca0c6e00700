/** Byte accounting of domestic SMS texts, the SMS/LMS/MMS classes, and MMS titles
    (`packages/shared`). */
module SmsText {
  import opened JsText

  const DOMESTIC_SMS_STANDARD_BYTES := 90
  const DOMESTIC_LMS_STANDARD_BYTES := 2000
  const DOMESTIC_MMS_TITLE_STANDARD_BYTES := 40
  const DEFAULT_MMS_TITLE := "이미지 메시지"

  datatype DomesticSmsMessageType = SMS | LMS | MMS | OVER_LIMIT

  function CharBytes(c: char): (n: nat)
    ensures 1 <= n <= 2
  {
    if c <= '\U{007F}' then 1 else 2
  }

  function Bytes(s: string): (n: nat)
    ensures |s| <= n <= 2 * |s|
  {
    if s == "" then 0 else Bytes(s[..|s| - 1]) + CharBytes(s[|s| - 1])
  }

  lemma {:induction false} BytesConcat(a: string, b: string)
    ensures Bytes(a + b) == Bytes(a) + Bytes(b)
  {
    if b == "" {
      assert a + b == a;
    } else {
      assert (a + b)[..|a + b| - 1] == a + b[..|b| - 1];
      BytesConcat(a, b[..|b| - 1]);
    }
  }

  lemma BytesPrefix(s: string, j: nat, k: nat)
    requires j <= k <= |s|
    ensures Bytes(s[..k]) == Bytes(s[..j]) + Bytes(s[j..k])
  {
    assert s[..k] == s[..j] + s[j..k];
    BytesConcat(s[..j], s[j..k]);
  }

  lemma BytesTrim(s: string)
    ensures Bytes(Trim(s)) <= Bytes(s)
  {
    var a, b := TrimMargins(s);
    BytesConcat(a + Trim(s), b);
    BytesConcat(a, Trim(s));
  }

  /** The SMS byte length of a text, newlines normalised first. */
  method GetDomesticSmsByteLength(value: string) returns (total: nat)
    ensures total == Bytes(NormalizeNewlines(value))
  {
    var text := NormalizeNewlines(value);
    total := 0;
    for i := 0 to |text|
      invariant total == Bytes(text[..i])
    {
      assert text[..i + 1][..i] == text[..i];
      total := total + CharBytes(text[i]);
    }
    assert text[..|text|] == text;
  }

  /** The bytes of some lines and of one newline between any two of them. */
  function LineBytes(lines: seq<string>): nat
    requires |lines| > 0
  {
    Bytes(lines[0]) + (if |lines| == 1 then 0 else 1 + LineBytes(lines[1..]))
  }

  /** However its lines end, a text has the bytes of its lines and one byte for every line end. */
  lemma {:induction false} LineEndsCountOnce(lines: seq<string>, ends: seq<string>)
    requires LinesWithEnds(lines, ends)
    ensures Bytes(NormalizeNewlines(JoinWith(lines, ends))) == LineBytes(lines)
  {
    LineEndsBecomeNewlines(lines, ends);
    JoinedBytes(lines);
  }

  lemma {:induction false} JoinedBytes(lines: seq<string>)
    requires |lines| > 0
    ensures Bytes(JoinLines(lines)) == LineBytes(lines)
  {
    if |lines| > 1 {
      JoinedBytes(lines[1..]);
      BytesConcat(lines[0] + "\n", JoinLines(lines[1..]));
      BytesConcat(lines[0], "\n");
      assert "\n"[..0] == "";
    }
  }

  /** ASCII characters take one byte and all others two. */
  lemma {:induction false} BytesAre(s: string)
    ensures Bytes(s) == |s| <==> forall i | 0 <= i < |s| :: s[i] <= '\U{007F}'
    ensures Bytes(s) == 2 * |s| <==> forall i | 0 <= i < |s| :: s[i] > '\U{007F}'
  {
    if s != "" {
      var n := |s| - 1;
      BytesAre(s[..n]);
      assert forall i | 0 <= i < n :: s[..n][i] == s[i];
    }
  }

  // -------------------------------------------------------------- truncation

  /** `k` is the largest number of leading characters that fit the byte budget. */
  ghost predicate LongestFit(text: string, maxBytes: nat, k: nat) {
    && k <= |text|
    && Bytes(text[..k]) <= maxBytes
    && (forall j | k < j <= |text| :: Bytes(text[..j]) > maxBytes)
  }

  function FitLength(text: string, maxBytes: nat): (k: nat)
    ensures LongestFit(text, maxBytes, k)
  {
    if Bytes(text) <= maxBytes then
      assert text[..|text|] == text;
      |text|
    else
      var n := |text| - 1;
      var k := FitLength(text[..n], maxBytes);
      assert text[..n][..k] == text[..k];
      assert forall j | k < j <= |text| :: Bytes(text[..j]) > maxBytes by {
        forall j | k < j <= |text| ensures Bytes(text[..j]) > maxBytes {
          if j == |text| {
            assert text[..j] == text;
          } else {
            assert text[..n][..j] == text[..j];
          }
        }
      }
      k
  }

  function Truncated(value: string, maxBytes: nat): string {
    var text := NormalizeNewlines(value);
    Trim(text[..FitLength(text, maxBytes)])
  }

  /** The loop stops at the first character that does not fit; that is the longest prefix within the budget. */
  method TruncateDomesticSmsText(value: string, maxBytes: nat) returns (r: string)
    ensures r == Truncated(value, maxBytes)
  {
    var text := NormalizeNewlines(value);
    var total := 0;
    var result := "";
    var i := 0;
    while i < |text|
      invariant 0 <= i <= |text|
      invariant result == text[..i]
      invariant total == Bytes(result) <= maxBytes
    {
      var charBytes := CharBytes(text[i]);
      assert text[..i + 1][..i] == text[..i];
      if total + charBytes > maxBytes {
        break;
      }
      result := result + [text[i]];
      assert result == text[..i + 1];
      total := total + charBytes;
      i := i + 1;
    }
    LongestFitIsUnique(text, maxBytes, i);
    r := Trim(result);
  }

  /** Stopping at the first character that does not fit finds the longest fit: bytes only grow with length. */
  lemma LongestFitIsUnique(text: string, maxBytes: nat, i: nat)
    requires i <= |text| && Bytes(text[..i]) <= maxBytes
    requires i == |text| || Bytes(text[..i + 1]) > maxBytes
    ensures i == FitLength(text, maxBytes)
  {
    var k := FitLength(text, maxBytes);
    if i < k {
      BytesPrefix(text, i + 1, k);
    }
  }

  /** Truncation is the trim of the longest prefix of the normalised text within the budget,
      and no other prefix length is the longest. */
  lemma TruncatedIsLongestPrefix(value: string, maxBytes: nat, k: nat)
    ensures LongestFit(NormalizeNewlines(value), maxBytes, k) <==> k == FitLength(NormalizeNewlines(value), maxBytes)
    ensures LongestFit(NormalizeNewlines(value), maxBytes, k) ==>
              Truncated(value, maxBytes) == Trim(NormalizeNewlines(value)[..k])
  {
    var text := NormalizeNewlines(value);
    if LongestFit(text, maxBytes, k) {
      LongestFitIsUnique(text, maxBytes, k);
    }
  }

  /** A text that is already trimmed, normalised and within budget is not changed by truncation. */
  lemma TruncateKeeps(value: string, maxBytes: nat)
    requires Trimmed(value) && '\r' !in value && Bytes(value) <= maxBytes
    ensures Truncated(value, maxBytes) == value
  {
    NormalizeKeeps(value);
    assert value[..|value|] == value;
    LongestFitIsUnique(value, maxBytes, |value|);
    TrimKeeps(value);
  }

  /** The result of truncation: within budget, trimmed, and free of carriage returns. */
  lemma TruncatedIsNormal(value: string, maxBytes: nat)
    ensures Bytes(Truncated(value, maxBytes)) <= maxBytes
    ensures Trimmed(Truncated(value, maxBytes)) && '\r' !in Truncated(value, maxBytes)
  {
    var text := NormalizeNewlines(value);
    var cut := text[..FitLength(text, maxBytes)];
    BytesTrim(cut);
    if '\r' in Truncated(value, maxBytes) {
      TrimSubset(cut, '\r');
      assert false;
    }
  }

  /** Truncating twice with the same budget is truncating once. */
  lemma TruncateIsIdempotent(value: string, maxBytes: nat)
    ensures Truncated(Truncated(value, maxBytes), maxBytes) == Truncated(value, maxBytes)
  {
    TruncatedIsNormal(value, maxBytes);
    TruncateKeeps(Truncated(value, maxBytes), maxBytes);
  }

  // ---------------------------------------------------------- classification

  function ClassifyDomesticSmsBody(body: string, hasAttachments: bool): DomesticSmsMessageType {
    var bytes := Bytes(NormalizeNewlines(body));
    if hasAttachments then
      if bytes <= DOMESTIC_LMS_STANDARD_BYTES then MMS else OVER_LIMIT
    else if bytes <= DOMESTIC_SMS_STANDARD_BYTES then SMS
    else if bytes <= DOMESTIC_LMS_STANDARD_BYTES then LMS
    else OVER_LIMIT
  }

  /** Over 2000 bytes a body is refused. Up to there it is an MMS with attachments, and without
      an SMS up to 90 bytes and an LMS above. */
  lemma ClassIsExact(body: string, hasAttachments: bool)
    ensures var bytes := Bytes(NormalizeNewlines(body));
            var messageType := ClassifyDomesticSmsBody(body, hasAttachments);
            && (messageType == OVER_LIMIT <==> bytes > 2000)
            && (messageType == MMS <==> hasAttachments && bytes <= 2000)
            && (messageType == SMS <==> !hasAttachments && bytes <= 90)
            && (messageType == LMS <==> !hasAttachments && 90 < bytes <= 2000)
  {}

  // -------------------------------------------------------------- MMS titles

  /** `split('\n').map(trim).find(Boolean)`. */
  function FirstNonBlank(lines: seq<string>): (r: string)
    ensures Trimmed(r)
  {
    if lines == [] then ""
    else if Trim(lines[0]) != "" then Trim(lines[0])
    else FirstNonBlank(lines[1..])
  }

  function TitleSource(body: string, preferredTitle: string): (r: string)
    ensures r != "" && Trimmed(r)
  {
    var preferred := Trim(preferredTitle);
    var fallbackLine := FirstNonBlank(SplitLines(NormalizeNewlines(body)));
    if preferred != "" then preferred
    else if fallbackLine != "" then fallbackLine
    else DEFAULT_MMS_TITLE
  }

  lemma {:induction false} FirstNonBlankIs(lines: seq<string>, k: nat)
    requires k <= |lines| && forall j | 0 <= j < k :: AllSpace(lines[j])
    ensures k == |lines| ==> FirstNonBlank(lines) == ""
    ensures k < |lines| && !AllSpace(lines[k]) ==> FirstNonBlank(lines) == Trim(lines[k])
  {
    hide Trim, AllSpace;
    if lines != [] {
      TrimBlank(lines[0]);
      if k > 0 { FirstNonBlankIs(lines[1..], k - 1); }
    }
  }

  /** The title comes from the preferred title unless that is blank, or else from the first line of
      the body that is not, and if there is none it is the default. */
  lemma TitleSourceIs(body: string, preferredTitle: string, k: nat)
    requires k <= |SplitLines(NormalizeNewlines(body))|
    requires forall j | 0 <= j < k :: AllSpace(SplitLines(NormalizeNewlines(body))[j])
    ensures var lines := SplitLines(NormalizeNewlines(body));
            && (!AllSpace(preferredTitle) ==> TitleSource(body, preferredTitle) == Trim(preferredTitle))
            && (AllSpace(preferredTitle) ==>
                  && (k < |lines| && !AllSpace(lines[k]) ==> TitleSource(body, preferredTitle) == Trim(lines[k]))
                  && (k == |lines| ==> TitleSource(body, preferredTitle) == DEFAULT_MMS_TITLE))
  {
    hide Trim, AllSpace, SplitLines, NormalizeNewlines;
    var lines := SplitLines(NormalizeNewlines(body));
    TrimBlank(preferredTitle);
    FirstNonBlankIs(lines, k);
    if k < |lines| { TrimBlank(lines[k]); }
  }

  /** A missing preferred title is the empty text. */
  function BuildDomesticMmsTitle(body: string, preferredTitle: string): string {
    var truncated := Truncated(TitleSource(body, preferredTitle), DOMESTIC_MMS_TITLE_STANDARD_BYTES);
    if truncated != "" then truncated else DEFAULT_MMS_TITLE
  }

  /** The last fallback of `buildDomesticMmsTitle` is never taken: a non-blank source keeps at least one character. */
  lemma TitleIsTruncatedSource(body: string, preferredTitle: string)
    ensures BuildDomesticMmsTitle(body, preferredTitle)
         == Truncated(TitleSource(body, preferredTitle), DOMESTIC_MMS_TITLE_STANDARD_BYTES)
         != ""
  {
    var source := TitleSource(body, preferredTitle);
    var text := NormalizeNewlines(source);
    assert source[0] != '\r' && text[0] == source[0];
    var k := FitLength(text, DOMESTIC_MMS_TITLE_STANDARD_BYTES);
    assert Bytes(text[..1]) <= 2;
    assert k >= 1;
    TrimBlank(text[..k]);
    assert text[..k][0] == source[0];
  }

  /** Titles are never empty and never exceed 40 bytes, and the worker, which builds the
      title again from the stored one, sends exactly the stored title, whatever the body. */
  lemma StoredTitleIsStable(body: string, preferredTitle: string, workerBody: string)
    ensures var title := BuildDomesticMmsTitle(body, preferredTitle);
            && title != ""
            && Bytes(NormalizeNewlines(title)) <= DOMESTIC_MMS_TITLE_STANDARD_BYTES
            && BuildDomesticMmsTitle(workerBody, title) == title
  {
    var title := BuildDomesticMmsTitle(body, preferredTitle);
    TitleIsTruncatedSource(body, preferredTitle);
    TruncatedIsNormal(TitleSource(body, preferredTitle), DOMESTIC_MMS_TITLE_STANDARD_BYTES);
    NormalizeKeeps(title);
    TrimKeeps(title);
    TruncateKeeps(title, DOMESTIC_MMS_TITLE_STANDARD_BYTES);
  }
}
