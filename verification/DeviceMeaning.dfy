/** What hostnames, interfaces and inventory entries are taken to say. */
module DeviceMeaning {
  import opened Text
  import opened TextMeaning
  import opened DeviceTables
  import opened Identity

  lemma BareIsTrimmed(s: string)
    requires Bare(s)
    ensures TrimSpace(s) == s
  {
    assert s == "" + s + "";
    TrimmedTo("", s, "");
  }

  // ---------------------------------------------------------------- hostnames

  /** In a name of words between separators a token is found if it is one of the words, or
      has five characters or more and occurs anywhere. */
  lemma TokenIsWordIff(words: seq<string>, c: char, token: string)
    requires c in "-.:/" && token != "cam-"
    requires forall i :: 0 <= i < |words| ==> Word(words[i], IsHostSeparator)
    ensures HostnameContains(Join(words, c), token) <==>
              token in words || (|token| >= 5 && Contains(Join(words, c), token))
  {
    FieldsOfJoin(words, c, IsHostSeparator);
  }

  /** A long token is found anywhere, the camera prefix at the start only. */
  lemma TokenAnywhere(front: string, token: string, back: string)
    requires |token| >= 5
    ensures HostnameContains(front + token + back, token)
    ensures HostnameContains(front, "cam-") <==> |front| >= 4 && front[..4] == ['c', 'a', 'm', '-']
  {
    assert OccursAt(front + token + back, token, |front|);
  }

  /** Underscores and blanks count as dashes, case and dots at the ends do not count. */
  lemma HostnameNameMeans(hostname: string, i: nat)
    requires hostname != "" && hostname[0] != '.' && hostname[|hostname| - 1] != '.'
    requires Bare(hostname) && i < |hostname|
    ensures |HostnameName(hostname)| == |hostname|
    ensures HostnameName(hostname)[i] ==
              if hostname[i] == '_' || hostname[i] == ' ' then '-' else LowerChar(hostname[i])
  {
    BareIsTrimmed(hostname);
  }

  /** Without a hostname nothing is suggested, whatever the patterns. */
  lemma NoHostname(patterns: seq<Pattern>)
    ensures HostnameType(patterns, "") == "unknown"
  {
    assert HostnameName("") == "";
    assert Fields("", IsHostSeparator) == [];
    NoPatternMatches(patterns, "");
  }

  // ---------------------------------------------------------------- hardware addresses

  /** Dashes count as colons, and case does not count. */
  lemma NormalizeMacMeans(mac: string, i: nat)
    requires Bare(mac) && i < |mac|
    ensures |NormalizeMac(mac)| == |mac|
    ensures NormalizeMac(mac)[i] == if mac[i] == '-' then ':' else LowerChar(mac[i])
  {
    BareIsTrimmed(mac);
  }

  /** An address is six pairs of hexadecimal digits with colons between them. */
  lemma HexAddressIff(m: string)
    ensures IsHexAddress(m) <==>
              |m| == 17 && forall i :: 0 <= i < 17 ==>
                if i == 2 || i == 5 || i == 8 || i == 11 || i == 14 then m[i] == ':' else m[i] in "0123456789abcdef"
  {
    forall c: char
      ensures IsHex(c) <==> c in "0123456789abcdef"
    {
      HexDigitIff(c);
    }
    assert forall i :: 0 <= i < 17 ==> (i % 3 == 2 <==> i == 2 || i == 5 || i == 8 || i == 11 || i == 14);
  }

  lemma HexDigitIff(c: char)
    ensures IsHex(c) <==> c in "0123456789abcdef"
  {
    var digits := "0123456789abcdef";
    if '0' <= c <= '9' {
      assert digits[c as int - '0' as int] == c;
    } else if 'a' <= c <= 'f' {
      assert digits[c as int - 'a' as int + 10] == c;
    }
  }

  // ---------------------------------------------------------------- interfaces

  predicate Begins(s: string, prefix: string) {
    |prefix| <= |s| && SameLetters(s[..|prefix|], prefix)
  }

  lemma BeginsIff(s: string, prefix: string)
    requires Lower(prefix) == prefix
    ensures prefix <= Lower(s) <==> Begins(s, prefix)
  {
    if |prefix| <= |s| {
      assert Lower(s)[..|prefix|] == Lower(s[..|prefix|]);
      LowerEqualIff(s[..|prefix|], prefix);
    }
  }

  /** The interfaces of guests begin with "vif", "tap" or "vnet", in any case. */
  lemma VirtualInterfaceIff(iface: string)
    requires Bare(iface)
    ensures IsVirtualInterface(iface) <==> Begins(iface, "vif") || Begins(iface, "tap") || Begins(iface, "vnet")
  {
    BareIsTrimmed(iface);
    var name := Lower(iface);
    assert "vif" <= name <==> Begins(iface, "vif") by { BeginsIff(iface, "vif"); }
    assert "tap" <= name <==> Begins(iface, "tap") by { BeginsIff(iface, "tap"); }
    assert "vnet" <= name <==> Begins(iface, "vnet") by { BeginsIff(iface, "vnet"); }
  }

  // ---------------------------------------------------------------- the inventory

  /** An entry "address=type" speaks for its address alone, and only with a type of the
      catalogue; further equality signs belong to the type. */
  lemma EntryMeans(cat: Catalogue, ip: string, left: string, right: string)
    requires '=' !in left
    ensures EntryType(cat, ip, left + "=" + right) ==
              if TrimSpace(left) == ip && IsNetworkType(cat, Lower(TrimSpace(right)))
              then Lower(TrimSpace(right)) else ""
    ensures EntryType(cat, ip, left) == ""
  {
    FirstIndexAt(left, '=', right);
    FirstIndexAbsent(left, '=');
    var entry := left + "=" + right;
    assert entry == left + ['='] + right;
    assert entry[..|left|] == left && entry[|left| + 1..] == right;
    UnknownIsNoType(cat);
  }

  lemma UnknownIsNoType(cat: Catalogue)
    ensures !IsNetworkType(cat, "")
  {
  }

  lemma {:induction false} FirstEntryWins(cat: Catalogue, ip: string, entries: seq<string>, i: nat)
    requires i <= |entries| && forall j :: 0 <= j < i ==> EntryType(cat, ip, entries[j]) == ""
    ensures i == |entries| ==> FirstOverride(cat, ip, entries) == ""
    ensures i < |entries| && EntryType(cat, ip, entries[i]) != "" ==>
              FirstOverride(cat, ip, entries) == EntryType(cat, ip, entries[i])
  {
    if i == 0 {
      assert entries != [] ==> entries[0] == entries[i];
    } else {
      var rest := entries[1..];
      assert forall j :: 0 <= j < i - 1 ==> rest[j] == entries[j + 1];
      FirstEntryWins(cat, ip, rest, i - 1);
      Skipped(cat, ip, entries);
    }
  }

  lemma Skipped(cat: Catalogue, ip: string, entries: seq<string>)
    requires entries != [] && EntryType(cat, ip, entries[0]) == ""
    ensures FirstOverride(cat, ip, entries) == FirstOverride(cat, ip, entries[1..])
  {
  }

  /** In a list of entries between commas, semicolons, blanks, tabs or newlines the first one
      that speaks for the address decides; without one there is no manual type. */
  lemma InventoryMeans(cat: Catalogue, ip: string, entries: seq<string>, c: char, i: nat)
    requires c in ",; \n\t" && i <= |entries|
    requires forall j :: 0 <= j < |entries| ==> Word(entries[j], IsInventorySeparator)
    requires forall j :: 0 <= j < i ==> EntryType(cat, ip, entries[j]) == ""
    ensures i == |entries| ==> OverrideType(cat, ip, Join(entries, c)) == ""
    ensures i < |entries| && EntryType(cat, ip, entries[i]) != "" ==>
              OverrideType(cat, ip, Join(entries, c)) == EntryType(cat, ip, entries[i])
  {
    FieldsOfJoin(entries, c, IsInventorySeparator);
    FirstEntryWins(cat, ip, entries, i);
  }

  /** Network neighbours are never of a storage type, "nas" and "san" excepted. */
  lemma StorageTypes(cat: Catalogue, t: string)
    requires Normal(t) && t !in cat.base && t in cat.extended && t in cat.storage
    ensures IsNetworkType(cat, t) <==> t == "nas" || t == "san"
  {
    NormalStays(t);
  }
}
