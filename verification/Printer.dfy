/** The config printer as the program runs it: a builder appended to piece by piece. */
module Printer {
  import opened Strings
  import opened Numerals
  import opened Profiles
  import opened ConfigText
  import opened Render

  /** A string builder. The ghost fields split its text into finished blocks and the settings of the current one. */
  class Builder {
    var text: string
    ghost var finished: string
    ghost var settings: seq<Setting>

    ghost predicate Valid()
      reads this
    {
      text == finished + Unlines(Assigns(settings))
    }

    constructor ()
      ensures Valid() && text == "" && finished == "" && settings == []
    {
      text, finished, settings := "", "", [];
    }

    /** Literal text starts a new block. */
    method WriteString(s: string)
      requires Valid()
      modifies this
      ensures Valid() && settings == [] && finished == old(text) + s
    {
      text := text + s;
      finished, settings := text, [];
    }

    /** A "key = value" line. */
    method Set(key: string, value: string)
      requires Valid()
      modifies this
      ensures Valid() && finished == old(finished) && settings == old(settings) + [(key, value)]
    {
      AssignsAppend(settings, [(key, value)]);
      UnlinesAppend(Assigns(settings), [Assign(key, value)]);
      assert Assigns([(key, value)]) == [Assign(key, value)];
      OneUnline(finished, Unlines(Assigns(settings)), Assign(key, value));
      text := text + Assign(key, value) + "\n";
      settings := settings + [(key, value)];
    }
  }

  lemma OneUnline(a: string, b: string, line: string)
    ensures a + b + line + "\n" == a + (b + Unlines([line]))
  {
    assert [line][1..] == [];
    assert Unlines([line]) == line + "\n" + "";
  }

  method WriteSpecialJunk(b: Builder, key: string, value: string, includeEmpty: bool)
    requires b.Valid()
    modifies b
    ensures b.Valid() && b.finished == old(b.finished)
    ensures b.settings == old(b.settings) + When(value != "" || includeEmpty, key, value)
  {
    if value == "" && !includeEmpty {
      return;
    }
    b.Set(key, value);
  }

  method WriteRange(b: Builder, key: string, value: IntRange)
    requires b.Valid()
    modifies b
    ensures b.Valid() && b.finished == old(b.finished)
    ensures b.settings == old(b.settings) + Range(key, value)
  {
    if value.IsZero() {
      return;
    }
    b.Set(key, value.Text());
  }

  /** A setting guarded by its own condition. */
  method SetIf(b: Builder, wanted: bool, key: string, value: string)
    requires b.Valid()
    modifies b
    ensures b.Valid() && b.finished == old(b.finished)
    ensures b.settings == old(b.settings) + When(wanted, key, value)
  {
    if wanted {
      b.Set(key, value);
    }
  }

  lemma Assoc4(s: seq<Setting>, a: seq<Setting>, b: seq<Setting>, c: seq<Setting>, d: seq<Setting>)
    ensures s + a + b + c + d == s + (a + b + c + d)
  {
    Assoc(s, a, b);
    Assoc(s, a + b, c);
    Assoc(s, a + b + c, d);
  }

  lemma Assoc6(s: seq<Setting>, a: seq<Setting>, b: seq<Setting>, c: seq<Setting>, d: seq<Setting>, e: seq<Setting>,
               f: seq<Setting>)
    ensures s + a + b + c + d + e + f == s + (a + b + c + d + e + f)
  {
    Assoc4(s, a, b, c, d);
    Assoc(s, a + b + c + d, e);
    Assoc(s, a + b + c + d + e, f);
  }

  method WriteRanges(b: Builder, p: Profile)
    requires b.Valid()
    modifies b
    ensures b.Valid() && b.finished == old(b.finished)
    ensures b.settings == old(b.settings) + Ranges(p)
  {
    ghost var s := b.settings;
    WriteRange(b, "ContentPaddingAddition", p.contentPaddingAddition);
    WriteRange(b, "RekeyAfterTime", p.rekeyAfterTime);
    WriteRange(b, "RekeyTimeout", p.rekeyTimeout);
    WriteRange(b, "RejectAfterTime", p.rejectAfterTime);
    WriteRange(b, "KeepaliveTimeout", p.keepaliveTimeout);
    WriteRange(b, "MaxHandshakeAttempts", p.maxHandshakeAttempts);
    Assoc6(s, Range("ContentPaddingAddition", p.contentPaddingAddition), Range("RekeyAfterTime", p.rekeyAfterTime),
           Range("RekeyTimeout", p.rekeyTimeout), Range("RejectAfterTime", p.rejectAfterTime),
           Range("KeepaliveTimeout", p.keepaliveTimeout), Range("MaxHandshakeAttempts", p.maxHandshakeAttempts));
  }

  lemma AddPaddings(s: seq<Setting>, p: Profile)
    ensures s + [("Jc", FormatInt(p.jc))] + [("Jmin", FormatInt(p.jmin))] + [("Jmax", FormatInt(p.jmax))]
            + [("S1", FormatInt(p.s1))] + [("S2", FormatInt(p.s2))]
            + When(p.SupportsV2Fields(), "S3", FormatInt(p.s3)) + When(p.SupportsV2Fields(), "S4", FormatInt(p.s4))
            == s + Paddings(p)
  {
    var x := [("Jc", FormatInt(p.jc))] + [("Jmin", FormatInt(p.jmin))] + [("Jmax", FormatInt(p.jmax))]
             + [("S1", FormatInt(p.s1))];
    var y := [("S2", FormatInt(p.s2))];
    var v := p.SupportsV2Fields();
    var z := When(v, "S3", FormatInt(p.s3)) + When(v, "S4", FormatInt(p.s4));
    Assoc4(s, [("Jc", FormatInt(p.jc))], [("Jmin", FormatInt(p.jmin))], [("Jmax", FormatInt(p.jmax))],
           [("S1", FormatInt(p.s1))]);
    Assoc(s, x, y);
    Assoc(s + (x + y), When(v, "S3", FormatInt(p.s3)), When(v, "S4", FormatInt(p.s4)));
    Assoc(s, x + y, z);
    assert x + y + z == Paddings(p);
  }

  method WritePaddings(b: Builder, p: Profile)
    requires b.Valid()
    modifies b
    ensures b.Valid() && b.finished == old(b.finished)
    ensures b.settings == old(b.settings) + Paddings(p)
  {
    AddPaddings(b.settings, p);
    b.Set("Jc", FormatInt(p.jc));
    b.Set("Jmin", FormatInt(p.jmin));
    b.Set("Jmax", FormatInt(p.jmax));
    b.Set("S1", FormatInt(p.s1));
    b.Set("S2", FormatInt(p.s2));
    SetIf(b, p.SupportsV2Fields(), "S3", FormatInt(p.s3));
    SetIf(b, p.SupportsV2Fields(), "S4", FormatInt(p.s4));
  }

  method WriteHeaders(b: Builder, p: Profile)
    requires b.Valid()
    modifies b
    ensures b.Valid() && b.finished == old(b.finished)
    ensures b.settings == old(b.settings) + Headers(p)
  {
    Assoc4(b.settings, [("H1", p.h1.Text())], [("H2", p.h2.Text())], [("H3", p.h3.Text())], [("H4", p.h4.Text())]);
    assert [("H1", p.h1.Text())] + [("H2", p.h2.Text())] + [("H3", p.h3.Text())] + [("H4", p.h4.Text())] == Headers(p);
    b.Set("H1", p.h1.Text());
    b.Set("H2", p.h2.Text());
    b.Set("H3", p.h3.Text());
    b.Set("H4", p.h4.Text());
  }

  method WriteAllSpecialJunk(b: Builder, p: Profile, includeEmpty: bool)
    requires b.Valid() && p.SupportsV2Fields()
    modifies b
    ensures b.Valid() && b.finished == old(b.finished)
    ensures b.settings == old(b.settings) + JunkTexts(p, includeEmpty)
  {
    ghost var j1 := When(p.i1 != "" || includeEmpty, "I1", p.i1);
    ghost var j2 := When(p.i2 != "" || includeEmpty, "I2", p.i2);
    ghost var j3 := When(p.i3 != "" || includeEmpty, "I3", p.i3);
    ghost var j4 := When(p.i4 != "" || includeEmpty, "I4", p.i4);
    ghost var j5 := When(p.i5 != "" || includeEmpty, "I5", p.i5);
    Assoc4(b.settings, j1, j2, j3, j4);
    Assoc(b.settings, j1 + j2 + j3 + j4, j5);
    WriteSpecialJunk(b, "I1", p.i1, includeEmpty);
    WriteSpecialJunk(b, "I2", p.i2, includeEmpty);
    WriteSpecialJunk(b, "I3", p.i3, includeEmpty);
    WriteSpecialJunk(b, "I4", p.i4, includeEmpty);
    WriteSpecialJunk(b, "I5", p.i5, includeEmpty);
  }

  method WriteV31(b: Builder, p: Profile)
    requires b.Valid() && p.IsV31()
    modifies b
    ensures b.Valid() && b.finished == old(b.finished)
    ensures b.settings == old(b.settings) + V31Settings(p)
  {
    ghost var key := When(p.headerProtectionKey != "", "HeaderProtectionKey", p.headerProtectionKey);
    ghost var trailers, cookies := [("RandomTrailers", OnOff(p.randomTrailers))], [("DisableCookies", OnOff(p.disableCookies))];
    Assoc4(b.settings, key, Ranges(p), trailers, cookies);
    Assoc(key + Ranges(p), trailers, cookies);
    SetIf(b, p.headerProtectionKey != "", "HeaderProtectionKey", p.headerProtectionKey);
    WriteRanges(b, p);
    b.Set("RandomTrailers", OnOff(p.randomTrailers));
    b.Set("DisableCookies", OnOff(p.disableCookies));
    assert trailers + cookies == [("RandomTrailers", OnOff(p.randomTrailers)), ("DisableCookies", OnOff(p.disableCookies))];
  }

  method WriteProfile(b: Builder, p: Profile, includeEmpty: bool)
    requires b.Valid()
    modifies b
    ensures b.Valid() && b.finished == old(b.finished)
    ensures b.settings == old(b.settings) + ProfileSettings(p, includeEmpty)
  {
    Assoc4(b.settings, Paddings(p), Headers(p), JunkTexts(p, includeEmpty), V31Settings(p));
    WritePaddings(b, p);
    WriteHeaders(b, p);
    if p.SupportsV2Fields() {
      WriteAllSpecialJunk(b, p, includeEmpty);
    }
    if p.IsV31() {
      WriteV31(b, p);
    }
  }

  method WriteAddresses(b: Builder, address: seq<string>)
    requires b.Valid()
    modifies b
    ensures b.Valid() && b.finished == old(b.finished)
    ensures b.settings == old(b.settings) + Addresses(address)
  {
    ghost var start, all := b.settings, Addresses(address);
    for i := 0 to |address|
      invariant b.Valid() && b.finished == old(b.finished)
      invariant b.settings == start + all[..i]
    {
      b.Set("Address", address[i]);
      assert all[..i + 1] == all[..i] + [all[i]];
      Assoc(start, all[..i], [all[i]]);
    }
    assert all[..|address|] == all;
  }

  method WriteInterface(b: Builder, iface: Interface)
    requires b.Valid()
    modifies b
    ensures b.Valid() && b.finished == old(b.finished)
    ensures b.settings == old(b.settings) + (Addresses(iface.address) + Identity(iface) + Hooks(iface))
  {
    ghost var s, a := b.settings, Addresses(iface.address);
    ghost var port := When(iface.listenPort > 0, "ListenPort", FormatInt(iface.listenPort));
    ghost var key := When(iface.privateKey != "", "PrivateKey", iface.privateKey);
    WriteAddresses(b, iface.address);
    SetIf(b, iface.listenPort > 0, "ListenPort", FormatInt(iface.listenPort));
    SetIf(b, iface.privateKey != "", "PrivateKey", iface.privateKey);
    Assoc(s, a, port);
    Assoc(s, a + port, key);
    Assoc(a, port, key);
    WriteHooks(b, iface);
    Assoc(s, a + Identity(iface), Hooks(iface));
  }

  method WriteHooks(b: Builder, iface: Interface)
    requires b.Valid()
    modifies b
    ensures b.Valid() && b.finished == old(b.finished)
    ensures b.settings == old(b.settings) + Hooks(iface)
  {
    Assoc4(b.settings, When(iface.mtu > 0, "MTU", FormatInt(iface.mtu)), When(iface.dns != [], "DNS", Join(iface.dns, ", ")),
           When(iface.postUp != "", "PostUp", iface.postUp), When(iface.postDown != "", "PostDown", iface.postDown));
    SetIf(b, iface.mtu > 0, "MTU", FormatInt(iface.mtu));
    SetIf(b, iface.dns != [], "DNS", Join(iface.dns, ", "));
    SetIf(b, iface.postUp != "", "PostUp", iface.postUp);
    SetIf(b, iface.postDown != "", "PostDown", iface.postDown);
  }

  method WritePeerSettings(b: Builder, p: PeerEntry)
    requires b.Valid() && b.settings == []
    modifies b
    ensures b.Valid() && b.finished == old(b.finished) && b.settings == PeerSettings(p)
  {
    b.Set("PublicKey", p.publicKey);
    assert b.settings == [("PublicKey", p.publicKey)];
    SetIf(b, p.presharedKey != "", "PresharedKey", p.presharedKey);
    SetIf(b, p.allowedIps != [], "AllowedIPs", Join(p.allowedIps, ", "));
    SetIf(b, p.endpoint != "", "Endpoint", p.endpoint);
    SetIf(b, p.keepalive > 0, "PersistentKeepalive", FormatInt(p.keepalive));
  }

  method WritePeerStart(b: Builder, comment: string)
    requires b.Valid()
    modifies b
    ensures b.Valid() && b.settings == [] && b.finished == old(b.text) + PeerStart(comment)
  {
    PeerStartText(b.text, comment);
    b.WriteString("\n[Peer]\n");
    if comment != "" {
      b.WriteString("# " + comment + "\n");
    }
  }

  /** A peer block with its comment. */
  method WritePeer(b: Builder, p: PeerEntry)
    requires b.Valid()
    modifies b
    ensures b.Valid() && b.text == old(b.text) + Unlines(PeerLines(p))
  {
    PeerText(b.text, p);
    WritePeerStart(b, p.comment);
    WritePeerSettings(b, p);
  }

  function PeerStart(comment: string): string {
    "\n[Peer]\n" + if comment == "" then "" else "# " + comment + "\n"
  }

  lemma PeerStartText(before: string, comment: string)
    ensures comment == "" ==> PeerStart(comment) == "\n[Peer]\n"
    ensures before + "\n[Peer]\n" + ("# " + comment + "\n") == before + ("\n[Peer]\n" + ("# " + comment + "\n"))
  {
  }

  lemma PeerStartLines(comment: string)
    ensures PeerStart(comment) == Unlines(["", "[Peer]"] + CommentLines(comment))
  {
    var c := CommentLines(comment);
    UnlinesAppend(["", "[Peer]"], c);
    assert Unlines(["", "[Peer]"]) == "\n[Peer]\n" by {
      assert ["", "[Peer]"][1..] == ["[Peer]"] && ["[Peer]"][1..] == [];
      assert Unlines(["[Peer]"]) == "[Peer]" + "\n" + "";
      assert Unlines(["", "[Peer]"]) == "" + "\n" + Unlines(["[Peer]"]);
    }
    if comment != "" {
      UnlinesOfLines("# " + comment);
    }
  }

  lemma PeerText(before: string, p: PeerEntry)
    ensures before + PeerStart(p.comment) + Unlines(Assigns(PeerSettings(p))) == before + Unlines(PeerLines(p))
  {
    PeerStartLines(p.comment);
    UnlinesAppend(["", "[Peer]"] + CommentLines(p.comment), Assigns(PeerSettings(p)));
  }

  method WriteInterfaceBlock(b: Builder, iface: Interface, profile: Profile)
    requires b.Valid() && b.text == ""
    modifies b
    ensures b.Valid() && b.text == Unlines(InterfaceLines(iface, profile))
  {
    InterfaceText(iface, profile);
    b.WriteString(BANNER + "\n");
    b.WriteString("[Interface]" + "\n");
    WriteInterface(b, iface);
    WriteProfile(b, profile, false);
    assert [] + (Addresses(iface.address) + Identity(iface) + Hooks(iface)) ==
           Addresses(iface.address) + Identity(iface) + Hooks(iface);
  }

  method WritePeers(b: Builder, sorted: seq<PeerEntry>)
    requires b.Valid()
    modifies b
    ensures b.Valid() && b.text == old(b.text) + Unlines(AllPeerLines(sorted))
  {
    ghost var goal := b.text + Unlines(AllPeerLines(sorted));
    assert sorted[0..] == sorted;
    for i := 0 to |sorted|
      invariant b.Valid()
      invariant b.text + Unlines(AllPeerLines(sorted[i..])) == goal
    {
      NextPeer(b.text, sorted, i);
      WritePeer(b, sorted[i]);
    }
    assert sorted[|sorted|..] == [];
  }

  /** The server config, peers in key order. */
  method WriteServer(iface: Interface, profile: Profile, peers: seq<PeerEntry>) returns (text: string)
    ensures text == Server(iface, profile, peers)
  {
    var b := new Builder();
    WriteInterfaceBlock(b, iface, profile);
    var sorted := SortByKey(peers);
    WritePeers(b, sorted);
    UnlinesAppend(InterfaceLines(iface, profile), AllPeerLines(sorted));
    return b.text;
  }

  lemma TwoUnlines(a: string, b: string)
    ensures Unlines([a, b]) == a + "\n" + (b + "\n")
  {
    assert [a, b][1..] == [b] && [b][1..] == [];
    assert Unlines([b]) == b + "\n" + "";
  }

  lemma StartText(banner: string, header: string, rest: string)
    ensures "" + (banner + "\n") + (header + "\n") + rest == banner + "\n" + (header + "\n") + rest
  {
  }

  lemma InterfaceText(iface: Interface, profile: Profile)
    ensures "" + (BANNER + "\n") + ("[Interface]" + "\n") + Unlines(Assigns(InterfaceSettings(iface, profile))) ==
            Unlines(InterfaceLines(iface, profile))
  {
    TwoUnlines(BANNER, "[Interface]");
    UnlinesAppend([BANNER, "[Interface]"], Assigns(InterfaceSettings(iface, profile)));
    StartText(BANNER, "[Interface]", Unlines(Assigns(InterfaceSettings(iface, profile))));
  }

  lemma NextPeer(text: string, sorted: seq<PeerEntry>, i: nat)
    requires i < |sorted|
    ensures text + Unlines(AllPeerLines(sorted[i..])) ==
            text + Unlines(PeerLines(sorted[i])) + Unlines(AllPeerLines(sorted[i + 1..]))
  {
    assert sorted[i..][1..] == sorted[i + 1..];
    UnlinesAppend(PeerLines(sorted[i]), AllPeerLines(sorted[i + 1..]));
  }
}
