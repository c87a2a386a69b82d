/** Which texts are device lists: the parts of an entry against the parser's reading of it
    (crosspuck-app/src/bottle_config.rs). */
module BottleConfigDevices {
  import opened Wrappers
  import opened Lists
  import opened Text
  import opened BottleConfig
  import opened BottleConfigLists
  import opened BottleConfigGrammar

  lemma NumberReads(before: string, digits: string, after: string)
    requires AllBlank(before) && AllBlank(after) && HexNumber(digits)
    ensures DeviceNumber(before + (['0', 'x'] + digits) + after) == Some(HexValue(digits))
  {
    hide Trim, HexValue;
    var core := ['0', 'x'] + digits;
    assert IsHexDigit(digits[|digits| - 1]);
    TrimSolid(core);
    TrimPadded(before, core, after);
    assert core[..2] == "0x" && core[2..] == digits;
  }

  lemma NumberParts(value: string) returns (before: string, digits: string, after: string)
    requires DeviceNumber(value).Some?
    ensures AllBlank(before) && AllBlank(after) && HexNumber(digits)
    ensures value == before + (['0', 'x'] + digits) + after && DeviceNumber(value) == Some(HexValue(digits))
  {
    hide Trim, HexValue;
    var i, j := TrimSpan(value);
    before, digits, after := value[..i], value[i..j][2..], value[j..];
    assert value[i..j] == value[i..j][..2] + digits;
    assert value == value[..i] + value[i..j] + value[j..];
  }

  /** A device is read as its two numbers. */
  lemma {:induction false} DeviceReads(d: Device)
    requires d.WellFormed()
    ensures DeviceIds(d.Text()) == Some((HexValue(d.vendor), HexValue(d.product)))
    ensures !AllBlank(d.Text())
  {
    hide Trim, HexValue, DeviceNumber, AllBlank, HexNumber, DeviceIds;
    var vendor, product := (['0', 'x'] + d.vendor) + d.mid, d.middle + (['0', 'x'] + d.product);
    var core := vendor + ['/'] + product;
    Regroup(d.before, ['0', 'x'] + d.vendor, d.mid, d.middle, ['0', 'x'] + d.product, d.after);
    DeviceCore(d, core);
    TrimSolid(core);
    TrimPadded(d.before, core, d.after);
    SidesRead(d);
    PairReads(d.Text(), vendor, product);
  }

  lemma Regroup(before: string, vendor: string, mid: string, middle: string, product: string, after: string)
    ensures (before + vendor + mid) + ['/'] + (middle + product + after)
         == before + ((vendor + mid) + ['/'] + (middle + product)) + after
  {}

  lemma SidesRead(d: Device)
    requires d.WellFormed()
    ensures DeviceNumber((['0', 'x'] + d.vendor) + d.mid) == Some(HexValue(d.vendor))
    ensures DeviceNumber(d.middle + (['0', 'x'] + d.product)) == Some(HexValue(d.product))
  {
    hide HexValue, DeviceNumber, HexNumber;
    NumberReads([], d.vendor, d.mid);
    NumberReads(d.middle, d.product, []);
    assert [] + (['0', 'x'] + d.vendor) + d.mid == (['0', 'x'] + d.vendor) + d.mid;
    assert d.middle + (['0', 'x'] + d.product) + [] == d.middle + (['0', 'x'] + d.product);
  }

  lemma PairReads(device: string, vendor: string, product: string)
    requires Trim(device) == vendor + ['/'] + product && '/' !in vendor
    requires DeviceNumber(vendor).Some? && DeviceNumber(product).Some?
    ensures DeviceIds(device) == Some((DeviceNumber(vendor).value, DeviceNumber(product).value))
  {
    hide Trim, DeviceNumber;
    var core := vendor + ['/'] + product;
    assert core[|vendor|] == '/' && core[..|vendor|] == vendor && core[|vendor| + 1..] == product;
    FindUnique(core, '/', |vendor|);
  }

  lemma DeviceCore(d: Device, core: string)
    requires d.WellFormed()
    requires core == ((['0', 'x'] + d.vendor) + d.mid) + ['/'] + (d.middle + (['0', 'x'] + d.product))
    ensures !IsAsciiWhitespace(core[0]) && !IsAsciiWhitespace(core[|core| - 1])
    ensures '/' !in (['0', 'x'] + d.vendor) + d.mid
    ensures !AllBlank(d.before + core + d.after)
  {
    hide HexValue;
    assert core[0] == '0' && (d.before + core + d.after)[|d.before|] == '0';
    assert core[|core| - 1] == d.product[|d.product| - 1] && IsHexDigit(d.product[|d.product| - 1]);
    forall k | 0 <= k < |d.mid| ensures d.mid[k] != '/' {
      assert IsAsciiWhitespace(d.mid[k]);
    }
  }

  lemma DeviceOf(device: string) returns (d: Device)
    requires DeviceIds(device).Some?
    ensures d.WellFormed() && d.Text() == device
  {
    hide Trim, HexValue, DeviceNumber, AllBlank, HexNumber;
    var i, j := TrimSpan(device);
    var text := device[i..j];
    var slash := Find(text, '/').value;
    var a, vendor, b := NumberParts(text[..slash]);
    var c, product, e := NumberParts(text[slash + 1..]);
    BlankPair(device[..i], a);
    BlankPair(e, device[j..]);
    d := Device(device[..i] + a, vendor, b, c, product, e + device[j..]);
    assert text == text[..slash] + ['/'] + text[slash + 1..];
    assert device == device[..i] + text + device[j..];
    RegroupOuter(device[..i], a, ['0', 'x'] + vendor, b, c, ['0', 'x'] + product, e, device[j..]);
  }

  lemma RegroupOuter(o: string, a: string, vendor: string, b: string, c: string, product: string, e: string, p: string)
    ensures ((o + a) + vendor + b) + ['/'] + (c + product + (e + p))
         == o + ((a + vendor + b) + ['/'] + (c + product + e)) + p
  {}

  lemma BlankPair(a: string, b: string)
    requires AllBlank(a) && AllBlank(b)
    ensures AllBlank(a + b)
  {}

  lemma BlankIff(s: string)
    ensures IsBlank(s) <==> AllBlank(s)
  {
    var i, j := TrimSpan(s);
    if i == j {
      assert s == s[..i] + s[j..];
      BlankPair(s[..i], s[j..]);
    }
  }

  /** An entry is accepted iff it is blank or a device by its parts. */
  lemma {:induction false} EntryIff(entry: string)
    ensures ValidDevice(entry) <==> IsEntry(entry)
  {
    hide IsBlank, DeviceIds;
    BlankIff(entry);
    if DeviceIds(entry).Some? {
      var d := DeviceOf(entry);
    } else if d: Device :| d.WellFormed() && d.Text() == entry {
      DeviceReads(d);
    }
  }

  /** The ignore list names the duplicate device in exactly the spellings of its two
      numbers. */
  lemma {:induction false} DuplicateIff(d: Device)
    requires d.WellFormed()
    ensures IsDuplicateDevice(d.Text()) <==> HexValue(d.vendor) == 0x05AC && HexValue(d.product) == 4
  {
    hide DeviceIds, HexValue;
    DeviceReads(d);
  }

  /** A list is accepted iff it is entries with commas between them. */
  lemma {:induction false} ListIff(list: string)
    ensures ValidateDevices(list).Ok? <==> ValidList(list)
  {
    hide ValidDevice, IsEntry, TrimStart, Split;
    forall e ensures ValidDevice(e) <==> IsEntry(e) {
      EntryIff(e);
    }
    var parts := Split(list, ',');
    SplitParts(list, ',');
    if Every(parts, ValidDevice) {
      ValidEntries(list);
      assert IsList(list, parts);
    }
    if entries :| IsList(list, entries) {
      SplitJoin(entries, ',');
      assert parts == entries;
      assert Every(parts, ValidDevice);
      ValidEntries(list);
    }
  }

  /** The ignore list hides the device iff one of its entries spells it. */
  lemma {:induction false} HidesIff(list: string, entries: seq<string>)
    requires IsList(list, entries)
    ensures ListHides(list) <==> exists d: Device :: d.WellFormed() && d.Text() in entries
                                                     && HexValue(d.vendor) == 0x05AC && HexValue(d.product) == 4
  {
    hide IsDuplicateDevice, HexValue, Split, Join;
    SplitJoin(entries, ',');
    if ListHides(list) {
      var i :| 0 <= i < |entries| && IsDuplicateDevice(entries[i]);
      HiddenParts(entries[i]);
      var d: Device :| d.WellFormed() && d.Text() == entries[i] && HexValue(d.vendor) == 0x05AC && HexValue(d.product) == 4;
      assert d.Text() in entries;
    }
    if d: Device :| d.WellFormed() && d.Text() in entries && HexValue(d.vendor) == 0x05AC && HexValue(d.product) == 4 {
      DuplicateIff(d);
      var i :| 0 <= i < |entries| && entries[i] == d.Text();
      assert IsDuplicateDevice(entries[i]);
    }
  }

  lemma HiddenParts(entry: string)
    requires IsDuplicateDevice(entry)
    ensures exists d: Device :: d.WellFormed() && d.Text() == entry && HexValue(d.vendor) == 0x05AC && HexValue(d.product) == 4
  {
    hide HexValue, DeviceIds;
    var d := DeviceOf(entry);
    DeviceReads(d);
  }
}
