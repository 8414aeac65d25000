/**
 The lines of the catalog (UpdateGlobalCatalog in internal/coordinator/node.go), and a reader that
 gets the fields back from a line.
 */
module CatalogLine {
  import opened Wrappers
  import opened Content

  function Decimal(n: nat): (s: string)
    ensures s != ""
  {
    if n < 10 then ["0123456789"[n]] else Decimal(n / 10) + ["0123456789"[n % 10]]
  }

  function Signed(n: int): string {
    if n < 0 then "-" + Decimal(-n) else Decimal(n)
  }

  /** One line of the catalog. */
  function Entry(name: string, cid: Cid, size: int, ext: string): Bytes {
    "Name: " + name + " | CID: " + cid + " | Size: " + Signed(size) + " bytes | Type: " + ext + "\n"
  }

  // ----- Reading it back -----

  /** What stands between these two, if the text begins with the one and ends with the other. */
  function Between(before: string, text: string, after: string): Option<string> {
    if |before| + |after| <= |text| && before <= text && text[|text| - |after|..] == after
    then Some(text[|before|..|text| - |after|])
    else None
  }

  /** The text up to its last bar, and what follows that bar. */
  function AtLastBar(text: string): Option<(string, string)> {
    if text == "" then None
    else
      var n := |text| - 1;
      if text[n] == '|' then Some((text[..n], ""))
      else match AtLastBar(text[..n])
        case None => None
        case Some((front, back)) => Some((front, back + [text[n]]))
  }

  /** The number that these digits denote. */
  function ReadDigits(s: string): Option<int> {
    if s == "" then Some(0)
    else
      var d := s[|s| - 1];
      var n :- ReadDigits(s[..|s| - 1]);
      if '0' <= d <= '9' then Some(10 * n + (d as int - '0' as int)) else None
  }

  function ReadSigned(s: string): Option<int> {
    if s != "" && s[0] == '-' then
      var n :- ReadDigits(s[1..]);
      Some(-n)
    else ReadDigits(s)
  }

  datatype Fields = Fields(name: string, cid: string, size: int, ext: string)

  /** The field behind the last bar, between these two, and what stands before that bar. */
  function LastField(before: string, text: string, after: string): Option<(string, string)> {
    var parts :- AtLastBar(text);
    var field :- Between(before, parts.1, after);
    Some((parts.0, field))
  }

  /** Reads a line from its end: the type, the size, the CID, and all the rest is the name. */
  function ReadEntry(line: string): Option<Fields> {
    var ext :- LastField(" Type: ", line, "\n");
    var digits :- LastField(" Size: ", ext.0, " bytes ");
    var cid :- LastField(" CID: ", digits.0, " ");
    var size :- ReadSigned(digits.1);
    var name :- Between("Name: ", cid.0, " ");
    Some(Fields(name, cid.1, size, ext.1))
  }

  lemma {:induction false} LastBarFound(front: string, back: string)
    requires '|' !in back
    ensures AtLastBar(front + "|" + back) == Some((front, back))
  {
    var text := front + "|" + back;
    if back == "" {
      assert text[..|text| - 1] == front;
    } else {
      var n := |back| - 1;
      LastBarFound(front, back[..n]);
      assert text[..|text| - 1] == front + "|" + back[..n] && text[|text| - 1] == back[n];
      assert back[..n] + [back[n]] == back;
    }
  }

  lemma {:induction false} NoBarAfterTheLast(text: string)
    ensures AtLastBar(text).Some? ==> '|' !in AtLastBar(text).value.1
  {
    if text != "" {
      NoBarAfterTheLast(text[..|text| - 1]);
    }
  }

  lemma BetweenFound(before: string, middle: string, after: string)
    ensures Between(before, before + middle + after, after) == Some(middle)
  {
    var text := before + middle + after;
    assert text == before + (middle + after);
    assert text[|before|..|text| - |after|] == middle;
  }

  lemma BetweenIsPart(before: string, text: string, after: string)
    requires '|' !in text
    ensures Between(before, text, after).Some? ==> '|' !in Between(before, text, after).value
  {}

  lemma {:induction false} DecimalReads(n: nat)
    ensures ReadDigits(Decimal(n)) == Some(n)
    ensures forall c | c in Decimal(n) :: '0' <= c <= '9'
  {
    if n < 10 {
      assert Decimal(n)[..0] == "";
    } else {
      DecimalReads(n / 10);
      assert Decimal(n)[..|Decimal(n)| - 1] == Decimal(n / 10);
    }
  }

  lemma {:induction false} NoLeadingZero(n: nat)
    ensures if n == 0 then Decimal(n) == "0" else Decimal(n)[0] != '0'
  {
    if n >= 10 {
      NoLeadingZero(n / 10);
    }
  }

  lemma DigitsOnly(s: string)
    requires forall c | c in s :: '0' <= c <= '9'
    ensures '|' !in s && (s != "" ==> s[0] != '-')
  {
    assert s != "" ==> s[0] in s;
  }

  lemma NegativeReads(s: string, n: int)
    requires ReadDigits(s) == Some(n)
    ensures ReadSigned("-" + s) == Some(-n)
  {
    assert ("-" + s)[1..] == s;
  }

  /** The digits denote the number, without leading zeros, and hold no bar. */
  lemma SignedReads(n: int)
    ensures ReadSigned(Signed(n)) == Some(n) && '|' !in Signed(n)
    ensures n == 0 ==> Signed(n) == "0"
    ensures n != 0 ==> Signed(n)[if n < 0 then 1 else 0] != '0'
  {
    var size := if n < 0 then -n else n;
    DecimalReads(size);
    NoLeadingZero(size);
    DigitsOnly(Decimal(size));
    NegativeReads(Decimal(size), size);
  }

  /** A label that holds a bar, in the middle of a text. */
  lemma AtBar(text: string, end: string, bar: string, start: string, more: string)
    ensures text + (end + bar + start) + more == text + end + bar + (start + more)
  {
    assert text + (end + bar + start) == text + end + bar + start;
  }

  lemma Labels()
    ensures " | CID: " == " " + "|" + " CID: "
    ensures " | Size: " == " " + "|" + " Size: "
    ensures " bytes | Type: " == " bytes " + "|" + " Type: "
  {}

  lemma Append(text: string, more: string, end: string)
    ensures text + more + end == text + (more + end)
  {}

  lemma LineFrom(toName: string, cid: Cid, num: string, ext: string)
    ensures
      var toCid := toName + " " + "|" + (" CID: " + cid + " ");
      var toSize := toCid + "|" + (" Size: " + num + " bytes ");
      toName + " | CID: " + cid + " | Size: " + num + " bytes | Type: " + ext + "\n"
      == toSize + "|" + (" Type: " + ext + "\n")
  {
    Labels();
    var toCid := toName + " " + "|" + (" CID: " + cid);
    AtBar(toName, " ", "|", " CID: ", cid);
    var toSize := toCid + " " + "|" + (" Size: " + num);
    AtBar(toCid, " ", "|", " Size: ", num);
    Append(toName + " " + "|", " CID: " + cid, " ");
    AtBar(toSize, " bytes ", "|", " Type: ", ext);
    Append(toCid + " " + "|", " Size: " + num, " bytes ");
    Append(toSize + " bytes " + "|", " Type: " + ext, "\n");
  }

  /** The parts of a line between its last three bars. */
  lemma LineParts(name: string, cid: Cid, size: int, ext: string)
    ensures
      var toName := "Name: " + name + " ";
      var toCid := toName + "|" + (" CID: " + cid + " ");
      var toSize := toCid + "|" + (" Size: " + Signed(size) + " bytes ");
      Entry(name, cid, size, ext) == toSize + "|" + (" Type: " + ext + "\n")
  {
    LineFrom("Name: " + name, cid, Signed(size), ext);
  }

  /**
   The fields of a line are read back, whatever the name, if and only if neither the CID nor the type
   holds a bar; a CID never does.
   */
  lemma FieldsAreReadBackIff(name: string, cid: Cid, size: int, ext: string)
    ensures ReadEntry(Entry(name, cid, size, ext)) == Some(Fields(name, cid, size, ext)) <==>
            '|' !in cid && '|' !in ext
  {
    if '|' !in cid && '|' !in ext {
      FieldsAreReadBack(name, cid, size, ext);
    } else {
      ReadFieldsHaveNoBar(Entry(name, cid, size, ext));
    }
  }

  lemma LastFieldFound(front: string, before: string, field: string, after: string)
    requires '|' !in before + field + after
    ensures LastField(before, front + "|" + (before + field + after), after) == Some((front, field))
  {
    LastBarFound(front, before + field + after);
    BetweenFound(before, field, after);
  }

  lemma FieldsAreReadBack(name: string, cid: Cid, size: int, ext: string)
    requires '|' !in cid && '|' !in ext
    ensures ReadEntry(Entry(name, cid, size, ext)) == Some(Fields(name, cid, size, ext))
  {
    var toName := "Name: " + name + " ";
    var toCid := toName + "|" + (" CID: " + cid + " ");
    var toSize := toCid + "|" + (" Size: " + Signed(size) + " bytes ");
    LineParts(name, cid, size, ext);
    SignedReads(size);
    LastFieldFound(toSize, " Type: ", ext, "\n");
    LastFieldFound(toCid, " Size: ", Signed(size), " bytes ");
    LastFieldFound(toName, " CID: ", cid, " ");
    BetweenFound("Name: ", name, " ");
  }

  lemma LastFieldHasNoBar(before: string, text: string, after: string)
    ensures LastField(before, text, after).Some? ==> '|' !in LastField(before, text, after).value.1
  {
    NoBarAfterTheLast(text);
    if AtLastBar(text).Some? {
      BetweenIsPart(before, AtLastBar(text).value.1, after);
    }
  }

  lemma ReadFieldsHaveNoBar(line: string)
    ensures ReadEntry(line).Some? ==> '|' !in ReadEntry(line).value.cid && '|' !in ReadEntry(line).value.ext
  {
    LastFieldHasNoBar(" Type: ", line, "\n");
    if ReadEntry(line).Some? {
      var bySize := LastField(" Type: ", line, "\n").value.0;
      LastFieldHasNoBar(" CID: ", LastField(" Size: ", bySize, " bytes ").value.0, " ");
    }
  }

  lemma CidHasNoBar(cid: Cid)
    requires IsCid(cid)
    ensures '|' !in cid
  {}

  /** A type with bars in it makes two different entries one line. */
  lemma BarsInTypeConfuse(name: string, cid: Cid, size: int, ext: string, cid2: Cid, size2: int, ext2: string)
    ensures Entry(name, cid, size, ext + " | CID: " + cid2 + " | Size: " + Signed(size2) + " bytes | Type: " + ext2)
         == Entry(name + " | CID: " + cid + " | Size: " + Signed(size) + " bytes | Type: " + ext, cid2, size2, ext2)
  {
    SixMore("Name: ", name, " | CID: ", cid, " | Size: ", Signed(size), " bytes | Type: ", ext);
    var line := "Name: " + name + " | CID: " + cid + " | Size: " + Signed(size) + " bytes | Type: ";
    SixMore(line, ext, " | CID: ", cid2, " | Size: ", Signed(size2), " bytes | Type: ", ext2);
  }

  lemma SixMore(t: string, a: string, b: string, c: string, d: string, e: string, f: string, g: string)
    ensures t + (a + b + c + d + e + f + g) == t + a + b + c + d + e + f + g
  {
    Append(t, a, b);
    Append(t, a + b, c);
    Append(t, a + b + c, d);
    Append(t, a + b + c + d, e);
    Append(t, a + b + c + d + e, f);
    Append(t, a + b + c + d + e + f, g);
  }
}
