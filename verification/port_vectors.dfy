/** The handshake's two worked examples, `testPortRequest` and
    `testPortResponse`. Each is proved block by block: every group of three
    bytes is checked against its four characters on its own, and the
    general lemmas about `Base64.Encode` and the JSON writer join them. */
module PortVectors {
  import opened Wrappers
  import opened Utf8
  import opened JsonWriter
  import Base64
  import opened PortHandshake

  /** A whole group of three bytes in front of the rest encodes on its own. */
  lemma EncodeCons(a: seq<byte>, rest: seq<byte>, qa: string, qrest: string)
    requires |a| == 3 && Base64.Encode(a) == qa && Base64.Encode(rest) == qrest
    ensures Base64.Encode(a + rest) == qa + qrest
  {
    Base64.EncodeAppend(a, rest);
  }

  /** Six groups, the last of any length, encode group by group. */
  lemma EncodeSix(a1: seq<byte>, a2: seq<byte>, a3: seq<byte>, a4: seq<byte>, a5: seq<byte>, a6: seq<byte>,
                  q1: string, q2: string, q3: string, q4: string, q5: string, q6: string)
    requires |a1| == 3 && |a2| == 3 && |a3| == 3 && |a4| == 3 && |a5| == 3
    requires Base64.Encode(a1) == q1 && Base64.Encode(a2) == q2 && Base64.Encode(a3) == q3
    requires Base64.Encode(a4) == q4 && Base64.Encode(a5) == q5 && Base64.Encode(a6) == q6
    ensures Base64.Encode(a1 + (a2 + (a3 + (a4 + (a5 + a6))))) == q1 + (q2 + (q3 + (q4 + (q5 + q6))))
  {
    EncodeCons(a5, a6, q5, q6);
    EncodeCons(a4, a5 + a6, q4, q5 + q6);
    EncodeCons(a3, a4 + (a5 + a6), q3, q4 + (q5 + q6));
    EncodeCons(a2, a3 + (a4 + (a5 + a6)), q2, q3 + (q4 + (q5 + q6)));
    EncodeCons(a1, a2 + (a3 + (a4 + (a5 + a6))), q1, q2 + (q3 + (q4 + (q5 + q6))));
  }

  /** Three bytes encode as the four characters their sextets name. */
  lemma EncodeBlock(b0: byte, b1: byte, b2: byte, q: string)
    requires |q| == 4
    requires q[0] == Base64.SextetChar(b0 / 4) && q[1] == Base64.SextetChar((b0 % 4) * 16 + b1 / 16)
    requires q[2] == Base64.SextetChar((b1 % 16) * 4 + b2 / 64) && q[3] == Base64.SextetChar(b2 % 64)
    ensures Base64.Encode([b0, b1, b2]) == q
  {
    assert [b0, b1, b2][3..] == [];
  }

  /** Four groups of three bytes in front of the rest encode group by group. */
  lemma EncodeFourOnto(a1: seq<byte>, a2: seq<byte>, a3: seq<byte>, a4: seq<byte>, rest: seq<byte>,
                       q1: string, q2: string, q3: string, q4: string, qrest: string)
    requires |a1| == 3 && |a2| == 3 && |a3| == 3 && |a4| == 3
    requires Base64.Encode(a1) == q1 && Base64.Encode(a2) == q2 && Base64.Encode(a3) == q3
    requires Base64.Encode(a4) == q4 && Base64.Encode(rest) == qrest
    ensures Base64.Encode(a1 + (a2 + (a3 + (a4 + rest)))) == q1 + (q2 + (q3 + (q4 + qrest)))
  {
    EncodeCons(a4, rest, q4, qrest);
    EncodeCons(a3, a4 + rest, q3, q4 + qrest);
    EncodeCons(a2, a3 + (a4 + rest), q2, q3 + (q4 + qrest));
    EncodeCons(a1, a2 + (a3 + (a4 + rest)), q1, q2 + (q3 + (q4 + qrest)));
  }

  // The sixteen groups of the request `{"returl":"socketport://spp4d.playground.ios"}`.
  lemma RequestBlock1() ensures Base64.Encode([0x7B, 0x22, 0x72]) == "eyJy" { EncodeBlock(0x7B, 0x22, 0x72, "eyJy"); }
  lemma RequestBlock2() ensures Base64.Encode([0x65, 0x74, 0x75]) == "ZXR1" { EncodeBlock(0x65, 0x74, 0x75, "ZXR1"); }
  lemma RequestBlock3() ensures Base64.Encode([0x72, 0x6C, 0x22]) == "cmwi" { EncodeBlock(0x72, 0x6C, 0x22, "cmwi"); }
  lemma RequestBlock4() ensures Base64.Encode([0x3A, 0x22, 0x73]) == "OiJz" { EncodeBlock(0x3A, 0x22, 0x73, "OiJz"); }
  lemma RequestBlock5() ensures Base64.Encode([0x6F, 0x63, 0x6B]) == "b2Nr" { EncodeBlock(0x6F, 0x63, 0x6B, "b2Nr"); }
  lemma RequestBlock6() ensures Base64.Encode([0x65, 0x74, 0x70]) == "ZXRw" { EncodeBlock(0x65, 0x74, 0x70, "ZXRw"); }
  lemma RequestBlock7() ensures Base64.Encode([0x6F, 0x72, 0x74]) == "b3J0" { EncodeBlock(0x6F, 0x72, 0x74, "b3J0"); }
  lemma RequestBlock8() ensures Base64.Encode([0x3A, 0x2F, 0x2F]) == "Oi8v" { EncodeBlock(0x3A, 0x2F, 0x2F, "Oi8v"); }
  lemma RequestBlock9() ensures Base64.Encode([0x73, 0x70, 0x70]) == "c3Bw" { EncodeBlock(0x73, 0x70, 0x70, "c3Bw"); }
  lemma RequestBlock10() ensures Base64.Encode([0x34, 0x64, 0x2E]) == "NGQu" { EncodeBlock(0x34, 0x64, 0x2E, "NGQu"); }
  lemma RequestBlock11() ensures Base64.Encode([0x70, 0x6C, 0x61]) == "cGxh" { EncodeBlock(0x70, 0x6C, 0x61, "cGxh"); }
  lemma RequestBlock12() ensures Base64.Encode([0x79, 0x67, 0x72]) == "eWdy" { EncodeBlock(0x79, 0x67, 0x72, "eWdy"); }
  lemma RequestBlock13() ensures Base64.Encode([0x6F, 0x75, 0x6E]) == "b3Vu" { EncodeBlock(0x6F, 0x75, 0x6E, "b3Vu"); }
  lemma RequestBlock14() ensures Base64.Encode([0x64, 0x2E, 0x69]) == "ZC5p" { EncodeBlock(0x64, 0x2E, 0x69, "ZC5p"); }
  lemma RequestBlock15() ensures Base64.Encode([0x6F, 0x73, 0x22]) == "b3Mi" { EncodeBlock(0x6F, 0x73, 0x22, "b3Mi"); }
  lemma RequestBlock16() ensures Base64.Encode([0x7D]) == "fQ==" { }

  // The returned URL, escaped six characters at a time: nothing in it needs escaping.
  lemma UrlChunk1() ensures EscapeString("socket") == [0x73, 0x6F, 0x63, 0x6B, 0x65, 0x74] { }
  lemma UrlChunk2() ensures EscapeString("port:/") == [0x70, 0x6F, 0x72, 0x74, 0x3A, 0x2F] { }
  lemma UrlChunk3() ensures EscapeString("/spp4d") == [0x2F, 0x73, 0x70, 0x70, 0x34, 0x64] { }
  lemma UrlChunk4() ensures EscapeString(".playg") == [0x2E, 0x70, 0x6C, 0x61, 0x79, 0x67] { }
  lemma UrlChunk5() ensures EscapeString("round.") == [0x72, 0x6F, 0x75, 0x6E, 0x64, 0x2E] { }
  lemma UrlChunk6() ensures EscapeString("ios") == [0x69, 0x6F, 0x73] { }

  /** Escaping six pieces of a string escapes each on its own. */
  lemma EscapeSix(c1: string, c2: string, c3: string, c4: string, c5: string, c6: string)
    ensures EscapeString(c1 + (c2 + (c3 + (c4 + (c5 + c6)))))
         == EscapeString(c1) + (EscapeString(c2) + (EscapeString(c3)
          + (EscapeString(c4) + (EscapeString(c5) + EscapeString(c6)))))
  {
    EscapeAppend(c5, c6);
    EscapeAppend(c4, c5 + c6);
    EscapeAppend(c3, c4 + (c5 + c6));
    EscapeAppend(c2, c3 + (c4 + (c5 + c6)));
    EscapeAppend(c1, c2 + (c3 + (c4 + (c5 + c6))));
  }

  /** The returned URL as six pieces. */
  lemma UrlPieces()
    ensures "socketport://spp4d.playground.ios" == "socket" + ("port:/" + ("/spp4d" + (".playg" + ("round." + ("ios")))))
  {
  }

  lemma UrlBytes()
    ensures [0x73, 0x6F, 0x63, 0x6B, 0x65, 0x74] + ([0x70, 0x6F, 0x72, 0x74, 0x3A, 0x2F]
          + ([0x2F, 0x73, 0x70, 0x70, 0x34, 0x64] + ([0x2E, 0x70, 0x6C, 0x61, 0x79, 0x67]
          + ([0x72, 0x6F, 0x75, 0x6E, 0x64, 0x2E] + [0x69, 0x6F, 0x73]))))
         == [0x73, 0x6F, 0x63, 0x6B, 0x65, 0x74, 0x70, 0x6F, 0x72, 0x74, 0x3A,
             0x2F, 0x2F, 0x73, 0x70, 0x70, 0x34, 0x64, 0x2E, 0x70, 0x6C, 0x61,
             0x79, 0x67, 0x72, 0x6F, 0x75, 0x6E, 0x64, 0x2E, 0x69, 0x6F, 0x73]
  {
  }

  lemma EscapedUrl()
    ensures EscapeString("socketport://spp4d.playground.ios")
         == [0x73, 0x6F, 0x63, 0x6B, 0x65, 0x74, 0x70, 0x6F, 0x72, 0x74, 0x3A,
             0x2F, 0x2F, 0x73, 0x70, 0x70, 0x34, 0x64, 0x2E, 0x70, 0x6C, 0x61,
             0x79, 0x67, 0x72, 0x6F, 0x75, 0x6E, 0x64, 0x2E, 0x69, 0x6F, 0x73]
  {
    UrlPieces();
    EscapeSix("socket", "port:/", "/spp4d", ".playg", "round.", "ios");
    UrlChunk1(); UrlChunk2(); UrlChunk3(); UrlChunk4(); UrlChunk5(); UrlChunk6();
    UrlBytes();
  }

  lemma ReturlBytes() ensures EscapeString("returl") == [0x72, 0x65, 0x74, 0x75, 0x72, 0x6C] { }

  lemma RequestRegroup()
    ensures [0x7B] + ([0x22] + [0x72, 0x65, 0x74, 0x75, 0x72, 0x6C] + [0x22]) + [0x3A]
          + ([0x22] + [0x73, 0x6F, 0x63, 0x6B, 0x65, 0x74, 0x70, 0x6F, 0x72, 0x74, 0x3A,
                        0x2F, 0x2F, 0x73, 0x70, 0x70, 0x34, 0x64, 0x2E, 0x70, 0x6C, 0x61,
                        0x79, 0x67, 0x72, 0x6F, 0x75, 0x6E, 0x64, 0x2E, 0x69, 0x6F, 0x73] + [0x22]) + [0x7D]
         == [0x7B, 0x22, 0x72] + ([0x65, 0x74, 0x75] + ([0x72, 0x6C, 0x22] + ([0x3A, 0x22, 0x73]
          + ([0x6F, 0x63, 0x6B] + ([0x65, 0x74, 0x70] + ([0x6F, 0x72, 0x74] + ([0x3A, 0x2F, 0x2F]
          + ([0x73, 0x70, 0x70] + ([0x34, 0x64, 0x2E] + ([0x70, 0x6C, 0x61] + ([0x79, 0x67, 0x72]
          + ([0x6F, 0x75, 0x6E] + ([0x64, 0x2E, 0x69] + ([0x6F, 0x73, 0x22] + ([0x7D])))))))))))))))
  {
  }

  /** A compact one-member object is the key, a colon and the value between braces. */
  lemma ObjectShape(key: string, valueText: seq<byte>)
    ensures ObjectText(key, valueText)
         == [JsonText.LeftBrace] + StringText(key) + [JsonText.Colon] + valueText + [JsonText.RightBrace]
  {
  }

  /** The request of testPortRequest as compact JSON, in groups of three bytes. */
  lemma RequestBytes()
    ensures ObjectText("returl", StringText("socketport://spp4d.playground.ios"))
         == [0x7B, 0x22, 0x72] + ([0x65, 0x74, 0x75] + ([0x72, 0x6C, 0x22] + ([0x3A, 0x22, 0x73]
          + ([0x6F, 0x63, 0x6B] + ([0x65, 0x74, 0x70] + ([0x6F, 0x72, 0x74] + ([0x3A, 0x2F, 0x2F]
          + ([0x73, 0x70, 0x70] + ([0x34, 0x64, 0x2E] + ([0x70, 0x6C, 0x61] + ([0x79, 0x67, 0x72]
          + ([0x6F, 0x75, 0x6E] + ([0x64, 0x2E, 0x69] + ([0x6F, 0x73, 0x22] + [0x7D]))))))))))))))
  {
    ObjectShape("returl", StringText("socketport://spp4d.playground.ios"));
    ReturlBytes();
    EscapedUrl();
    RequestRegroup();
  }

  /** The last eight groups of the request: `spp4d.playground.ios"}`. */
  lemma RequestTailEncoding()
    ensures Base64.Encode([0x73, 0x70, 0x70] + ([0x34, 0x64, 0x2E] + ([0x70, 0x6C, 0x61]
          + ([0x79, 0x67, 0x72] + ([0x6F, 0x75, 0x6E] + ([0x64, 0x2E, 0x69] + ([0x6F, 0x73, 0x22] + [0x7D])))))))
         == ("c3BwNGQucGxheWdy" + "b3VuZC5pb3MifQ==")
  {
    RequestBlock9(); RequestBlock10(); RequestBlock11(); RequestBlock12();
    RequestBlock13(); RequestBlock14(); RequestBlock15(); RequestBlock16();
    EncodeCons([0x6F, 0x73, 0x22], [0x7D], "b3Mi", "fQ==");
    EncodeCons([0x64, 0x2E, 0x69], [0x6F, 0x73, 0x22] + [0x7D], "ZC5p", "b3Mi" + "fQ==");
    EncodeCons([0x6F, 0x75, 0x6E], [0x64, 0x2E, 0x69] + ([0x6F, 0x73, 0x22] + [0x7D]),
               "b3Vu", "ZC5p" + ("b3Mi" + "fQ=="));
    EncodeFourOnto([0x73, 0x70, 0x70], [0x34, 0x64, 0x2E], [0x70, 0x6C, 0x61], [0x79, 0x67, 0x72],
                   [0x6F, 0x75, 0x6E] + ([0x64, 0x2E, 0x69] + ([0x6F, 0x73, 0x22] + [0x7D])),
                   "c3Bw", "NGQu", "cGxh", "eWdy", "b3Vu" + ("ZC5p" + ("b3Mi" + "fQ==")));
    TailText();
  }

  lemma TailText()
    ensures "c3Bw" + ("NGQu" + ("cGxh" + ("eWdy" + ("b3Vu" + ("ZC5p" + ("b3Mi" + "fQ=="))))))
         == ("c3BwNGQucGxheWdy" + "b3VuZC5pb3MifQ==")
  {
  }

  /** The middle four groups of the request, with the tail behind them. */
  lemma RequestMidEncoding()
    ensures Base64.Encode([0x6F, 0x63, 0x6B] + ([0x65, 0x74, 0x70] + ([0x6F, 0x72, 0x74]
          + ([0x3A, 0x2F, 0x2F] + ([0x73, 0x70, 0x70] + ([0x34, 0x64, 0x2E] + ([0x70, 0x6C, 0x61]
          + ([0x79, 0x67, 0x72] + ([0x6F, 0x75, 0x6E] + ([0x64, 0x2E, 0x69] + ([0x6F, 0x73, 0x22]
          + [0x7D])))))))))))
         == ("b2NrZXRwb3J0Oi8v" + ("c3BwNGQucGxheWdy" + "b3VuZC5pb3MifQ=="))
  {
    RequestBlock5(); RequestBlock6(); RequestBlock7(); RequestBlock8();
    RequestTailEncoding();
    EncodeFourOnto([0x6F, 0x63, 0x6B], [0x65, 0x74, 0x70], [0x6F, 0x72, 0x74], [0x3A, 0x2F, 0x2F],
                   [0x73, 0x70, 0x70] + ([0x34, 0x64, 0x2E] + ([0x70, 0x6C, 0x61] + ([0x79, 0x67, 0x72]
                   + ([0x6F, 0x75, 0x6E] + ([0x64, 0x2E, 0x69] + ([0x6F, 0x73, 0x22] + [0x7D])))))),
                   "b2Nr", "ZXRw", "b3J0", "Oi8v", ("c3BwNGQucGxheWdy" + "b3VuZC5pb3MifQ=="));
    MidText("c3BwNGQucGxheWdy" + "b3VuZC5pb3MifQ==");
  }

  /** Four groups of the request's middle, run together. */
  lemma MidText(t: string)
    ensures "b2Nr" + ("ZXRw" + ("b3J0" + ("Oi8v" + t))) == "b2NrZXRwb3J0Oi8v" + t
  {
  }

  /** The request's first four groups, run together. */
  lemma HeadText(t: string)
    ensures "eyJy" + ("ZXR1" + ("cmwi" + ("OiJz" + t))) == "eyJyZXR1cmwiOiJz" + t
  {
  }

  /** testPortRequest: the request for `socketport://spp4d.playground.ios`
      encodes to the query the test expects. */
  lemma RequestEncoding()
    ensures Base64.Encode(ObjectText("returl", StringText("socketport://spp4d.playground.ios")))
         == "eyJyZXR1cmwiOiJz" + ("b2NrZXRwb3J0Oi8v" + ("c3BwNGQucGxheWdy" + "b3VuZC5pb3MifQ=="))
  {
    RequestBytes();
    RequestBlock1(); RequestBlock2(); RequestBlock3(); RequestBlock4();
    RequestMidEncoding();
    EncodeFourOnto([0x7B, 0x22, 0x72], [0x65, 0x74, 0x75], [0x72, 0x6C, 0x22], [0x3A, 0x22, 0x73],
                   [0x6F, 0x63, 0x6B] + ([0x65, 0x74, 0x70] + ([0x6F, 0x72, 0x74] + ([0x3A, 0x2F, 0x2F]
                   + ([0x73, 0x70, 0x70] + ([0x34, 0x64, 0x2E] + ([0x70, 0x6C, 0x61] + ([0x79, 0x67, 0x72]
                   + ([0x6F, 0x75, 0x6E] + ([0x64, 0x2E, 0x69] + ([0x6F, 0x73, 0x22] + [0x7D])))))))))),
                   "eyJy", "ZXR1", "cmwi", "OiJz",
                   "b2NrZXRwb3J0Oi8v" + ("c3BwNGQucGxheWdy" + "b3VuZC5pb3MifQ=="));
    HeadText("b2NrZXRwb3J0Oi8v" + ("c3BwNGQucGxheWdy" + "b3VuZC5pb3MifQ=="));
  }

  // The six groups of the response `{\n  "port": 9635\n}`.
  lemma ResponseBlock1() ensures Base64.Encode([0x7B, 0x0A, 0x20]) == "ewog" { EncodeBlock(0x7B, 0x0A, 0x20, "ewog"); }
  lemma ResponseBlock2() ensures Base64.Encode([0x20, 0x22, 0x70]) == "ICJw" { EncodeBlock(0x20, 0x22, 0x70, "ICJw"); }
  lemma ResponseBlock3() ensures Base64.Encode([0x6F, 0x72, 0x74]) == "b3J0" { EncodeBlock(0x6F, 0x72, 0x74, "b3J0"); }
  lemma ResponseBlock4() ensures Base64.Encode([0x22, 0x3A, 0x20]) == "Ijog" { EncodeBlock(0x22, 0x3A, 0x20, "Ijog"); }
  lemma ResponseBlock5() ensures Base64.Encode([0x39, 0x36, 0x33]) == "OTYz" { EncodeBlock(0x39, 0x36, 0x33, "OTYz"); }
  lemma ResponseBlock6() ensures Base64.Encode([0x35, 0x0A, 0x7D]) == "NQp9" { EncodeBlock(0x35, 0x0A, 0x7D, "NQp9"); }

  /** The response of testPortResponse: `{\n  "port": 9635\n}`. */
  lemma ResponseBytes()
    ensures SpacedObjectText([0x0A, 0x20, 0x20], "port", [], [0x20], IntText(9635), [0x0A])
         == [0x7B, 0x0A, 0x20] + ([0x20, 0x22, 0x70] + ([0x6F, 0x72, 0x74]
          + ([0x22, 0x3A, 0x20] + ([0x39, 0x36, 0x33] + [0x35, 0x0A, 0x7D]))))
  {
  }

  lemma ResponseText()
    ensures "ewog" + ("ICJw" + ("b3J0" + ("Ijog" + ("OTYz" + "NQp9")))) == "ewogICJwb3J0IjogOTYzNQp9"
  {
  }

  lemma ResponseEncoding()
    ensures Base64.Encode(SpacedObjectText([0x0A, 0x20, 0x20], "port", [], [0x20], IntText(9635), [0x0A]))
         == "ewogICJwb3J0IjogOTYzNQp9"
  {
    ResponseBytes();
    ResponseBlock1(); ResponseBlock2(); ResponseBlock3();
    ResponseBlock4(); ResponseBlock5(); ResponseBlock6();
    EncodeSix([0x7B, 0x0A, 0x20], [0x20, 0x22, 0x70], [0x6F, 0x72, 0x74],
              [0x22, 0x3A, 0x20], [0x39, 0x36, 0x33], [0x35, 0x0A, 0x7D],
              "ewog", "ICJw", "b3J0", "Ijog", "OTYz", "NQp9");
    ResponseText();
  }

  /** The layout of the pretty-printed response is whitespace only. */
  lemma ResponseLayout()
    ensures JsonText.AllWhitespace([0x0A, 0x20, 0x20]) && JsonText.AllWhitespace([])
    ensures JsonText.AllWhitespace([0x20]) && JsonText.AllWhitespace([0x0A])
  {
  }

  /** testPortResponse: a URL whose query is `ewogICJwb3J0IjogOTYzNQp9`
      decodes to port 9635, whatever its scheme and host. */
  lemma PortResponseVector(p: string)
    requires '?' !in p && '#' !in p
    ensures DecodeResponse(p + ['?'] + "ewogICJwb3J0IjogOTYzNQp9") == Some(9635)
  {
    ResponseLayout();
    SpacedResponseRoundTrip(p, [0x0A, 0x20, 0x20], [], [0x20], [0x0A], 9635, []);
    ResponseEncoding();
    assert p + ['?'] + "ewogICJwb3J0IjogOTYzNQp9" + [] == p + ['?'] + "ewogICJwb3J0IjogOTYzNQp9";
  }

  /** testPortRequest, on the URL: the request prefix followed by the query
      the test expects. */
  lemma PortRequestVector()
    ensures MakeRequestUrl("socketport://spp4d.playground.ios")
         == RequestPrefix + ("eyJyZXR1cmwiOiJz" + ("b2NrZXRwb3J0Oi8v" + ("c3BwNGQucGxheWdy" + "b3VuZC5pb3MifQ==")))
  {
    RequestJsonBody("socketport://spp4d.playground.ios");
    RequestEncoding();
  }
}
