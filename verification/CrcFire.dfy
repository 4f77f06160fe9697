/** The table for G(x) = (x^11 + 1)(x^5 + x^3 + x^2 + x + 1). */
module CrcFire {
  import opened CrcTable

  const POLY: bv16 := 0x782f

  function First(): (row: seq<bv16>)
    ensures |row| == 8
  {
    [0x0000, 0x782f, 0xf05e, 0x8871, 0x9893, 0xe0bc, 0x68cd, 0x10e2]
  }

  lemma FirstIsTable()
    ensures IsTable(POLY, First())
  {
    FirstEntries(POLY, First());
  }

  method Rows0(tab: seq<bv16>) returns (tab': seq<bv16>)
    requires |tab| == 0 && IsTable(POLY, tab)
    ensures |tab'| == 32 && IsTable(POLY, tab')
  {
    hide IsTable;
    FirstIsTable();
    tab' := tab;
    tab' := AddRow(POLY, First(), tab', 0, 0x00, 0x0000, [0x0000, 0x782f, 0xf05e, 0x8871, 0x9893, 0xe0bc, 0x68cd, 0x10e2]);
    tab' := AddRow(POLY, First(), tab', 1, 0x01, 0x4909, [0x4909, 0x3126, 0xb957, 0xc178, 0xd19a, 0xa9b5, 0x21c4, 0x59eb]);
    tab' := AddRow(POLY, First(), tab', 2, 0x02, 0x9212, [0x9212, 0xea3d, 0x624c, 0x1a63, 0x0a81, 0x72ae, 0xfadf, 0x82f0]);
    tab' := AddRow(POLY, First(), tab', 3, 0x03, 0xdb1b, [0xdb1b, 0xa334, 0x2b45, 0x536a, 0x4388, 0x3ba7, 0xb3d6, 0xcbf9]);
  }

  method Rows1(tab: seq<bv16>) returns (tab': seq<bv16>)
    requires |tab| == 32 && IsTable(POLY, tab)
    ensures |tab'| == 64 && IsTable(POLY, tab')
  {
    hide IsTable;
    FirstIsTable();
    tab' := tab;
    tab' := AddRow(POLY, First(), tab', 4, 0x04, 0x5c0b, [0x5c0b, 0x2424, 0xac55, 0xd47a, 0xc498, 0xbcb7, 0x34c6, 0x4ce9]);
    tab' := AddRow(POLY, First(), tab', 5, 0x05, 0x1502, [0x1502, 0x6d2d, 0xe55c, 0x9d73, 0x8d91, 0xf5be, 0x7dcf, 0x05e0]);
    tab' := AddRow(POLY, First(), tab', 6, 0x06, 0xce19, [0xce19, 0xb636, 0x3e47, 0x4668, 0x568a, 0x2ea5, 0xa6d4, 0xdefb]);
    tab' := AddRow(POLY, First(), tab', 7, 0x07, 0x8710, [0x8710, 0xff3f, 0x774e, 0x0f61, 0x1f83, 0x67ac, 0xefdd, 0x97f2]);
  }

  method Rows2(tab: seq<bv16>) returns (tab': seq<bv16>)
    requires |tab| == 64 && IsTable(POLY, tab)
    ensures |tab'| == 96 && IsTable(POLY, tab')
  {
    hide IsTable;
    FirstIsTable();
    tab' := tab;
    tab' := AddRow(POLY, First(), tab', 8, 0x08, 0xb816, [0xb816, 0xc039, 0x4848, 0x3067, 0x2085, 0x58aa, 0xd0db, 0xa8f4]);
    tab' := AddRow(POLY, First(), tab', 9, 0x09, 0xf11f, [0xf11f, 0x8930, 0x0141, 0x796e, 0x698c, 0x11a3, 0x99d2, 0xe1fd]);
    tab' := AddRow(POLY, First(), tab', 10, 0x0a, 0x2a04, [0x2a04, 0x522b, 0xda5a, 0xa275, 0xb297, 0xcab8, 0x42c9, 0x3ae6]);
    tab' := AddRow(POLY, First(), tab', 11, 0x0b, 0x630d, [0x630d, 0x1b22, 0x9353, 0xeb7c, 0xfb9e, 0x83b1, 0x0bc0, 0x73ef]);
  }

  method Rows3(tab: seq<bv16>) returns (tab': seq<bv16>)
    requires |tab| == 96 && IsTable(POLY, tab)
    ensures |tab'| == 128 && IsTable(POLY, tab')
  {
    hide IsTable;
    FirstIsTable();
    tab' := tab;
    tab' := AddRow(POLY, First(), tab', 12, 0x0c, 0xe41d, [0xe41d, 0x9c32, 0x1443, 0x6c6c, 0x7c8e, 0x04a1, 0x8cd0, 0xf4ff]);
    tab' := AddRow(POLY, First(), tab', 13, 0x0d, 0xad14, [0xad14, 0xd53b, 0x5d4a, 0x2565, 0x3587, 0x4da8, 0xc5d9, 0xbdf6]);
    tab' := AddRow(POLY, First(), tab', 14, 0x0e, 0x760f, [0x760f, 0x0e20, 0x8651, 0xfe7e, 0xee9c, 0x96b3, 0x1ec2, 0x66ed]);
    tab' := AddRow(POLY, First(), tab', 15, 0x0f, 0x3f06, [0x3f06, 0x4729, 0xcf58, 0xb777, 0xa795, 0xdfba, 0x57cb, 0x2fe4]);
  }

  method Rows4(tab: seq<bv16>) returns (tab': seq<bv16>)
    requires |tab| == 128 && IsTable(POLY, tab)
    ensures |tab'| == 160 && IsTable(POLY, tab')
  {
    hide IsTable;
    FirstIsTable();
    tab' := tab;
    tab' := AddRow(POLY, First(), tab', 16, 0x10, 0x0803, [0x0803, 0x702c, 0xf85d, 0x8072, 0x9090, 0xe8bf, 0x60ce, 0x18e1]);
    tab' := AddRow(POLY, First(), tab', 17, 0x11, 0x410a, [0x410a, 0x3925, 0xb154, 0xc97b, 0xd999, 0xa1b6, 0x29c7, 0x51e8]);
    tab' := AddRow(POLY, First(), tab', 18, 0x12, 0x9a11, [0x9a11, 0xe23e, 0x6a4f, 0x1260, 0x0282, 0x7aad, 0xf2dc, 0x8af3]);
    tab' := AddRow(POLY, First(), tab', 19, 0x13, 0xd318, [0xd318, 0xab37, 0x2346, 0x5b69, 0x4b8b, 0x33a4, 0xbbd5, 0xc3fa]);
  }

  method Rows5(tab: seq<bv16>) returns (tab': seq<bv16>)
    requires |tab| == 160 && IsTable(POLY, tab)
    ensures |tab'| == 192 && IsTable(POLY, tab')
  {
    hide IsTable;
    FirstIsTable();
    tab' := tab;
    tab' := AddRow(POLY, First(), tab', 20, 0x14, 0x5408, [0x5408, 0x2c27, 0xa456, 0xdc79, 0xcc9b, 0xb4b4, 0x3cc5, 0x44ea]);
    tab' := AddRow(POLY, First(), tab', 21, 0x15, 0x1d01, [0x1d01, 0x652e, 0xed5f, 0x9570, 0x8592, 0xfdbd, 0x75cc, 0x0de3]);
    tab' := AddRow(POLY, First(), tab', 22, 0x16, 0xc61a, [0xc61a, 0xbe35, 0x3644, 0x4e6b, 0x5e89, 0x26a6, 0xaed7, 0xd6f8]);
    tab' := AddRow(POLY, First(), tab', 23, 0x17, 0x8f13, [0x8f13, 0xf73c, 0x7f4d, 0x0762, 0x1780, 0x6faf, 0xe7de, 0x9ff1]);
  }

  method Rows6(tab: seq<bv16>) returns (tab': seq<bv16>)
    requires |tab| == 192 && IsTable(POLY, tab)
    ensures |tab'| == 224 && IsTable(POLY, tab')
  {
    hide IsTable;
    FirstIsTable();
    tab' := tab;
    tab' := AddRow(POLY, First(), tab', 24, 0x18, 0xb015, [0xb015, 0xc83a, 0x404b, 0x3864, 0x2886, 0x50a9, 0xd8d8, 0xa0f7]);
    tab' := AddRow(POLY, First(), tab', 25, 0x19, 0xf91c, [0xf91c, 0x8133, 0x0942, 0x716d, 0x618f, 0x19a0, 0x91d1, 0xe9fe]);
    tab' := AddRow(POLY, First(), tab', 26, 0x1a, 0x2207, [0x2207, 0x5a28, 0xd259, 0xaa76, 0xba94, 0xc2bb, 0x4aca, 0x32e5]);
    tab' := AddRow(POLY, First(), tab', 27, 0x1b, 0x6b0e, [0x6b0e, 0x1321, 0x9b50, 0xe37f, 0xf39d, 0x8bb2, 0x03c3, 0x7bec]);
  }

  method Rows7(tab: seq<bv16>) returns (tab': seq<bv16>)
    requires |tab| == 224 && IsTable(POLY, tab)
    ensures |tab'| == 256 && IsTable(POLY, tab')
  {
    hide IsTable;
    FirstIsTable();
    tab' := tab;
    tab' := AddRow(POLY, First(), tab', 28, 0x1c, 0xec1e, [0xec1e, 0x9431, 0x1c40, 0x646f, 0x748d, 0x0ca2, 0x84d3, 0xfcfc]);
    tab' := AddRow(POLY, First(), tab', 29, 0x1d, 0xa517, [0xa517, 0xdd38, 0x5549, 0x2d66, 0x3d84, 0x45ab, 0xcdda, 0xb5f5]);
    tab' := AddRow(POLY, First(), tab', 30, 0x1e, 0x7e0c, [0x7e0c, 0x0623, 0x8e52, 0xf67d, 0xe69f, 0x9eb0, 0x16c1, 0x6eee]);
    tab' := AddRow(POLY, First(), tab', 31, 0x1f, 0x3705, [0x3705, 0x4f2a, 0xc75b, 0xbf74, 0xaf96, 0xd7b9, 0x5fc8, 0x27e7]);
  }

  method Table() returns (tab: seq<bv16>)
    ensures |tab| == 256 && IsTable(POLY, tab)
  {
    hide IsTable;
    EmptyTable(POLY);
    tab := [];
    tab := Rows0(tab);
    tab := Rows1(tab);
    tab := Rows2(tab);
    tab := Rows3(tab);
    tab := Rows4(tab);
    tab := Rows5(tab);
    tab := Rows6(tab);
    tab := Rows7(tab);
  }
}
