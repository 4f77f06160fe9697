/** The table for G(x) = x^16 + x^15 + x^2 + 1. */
module CrcAudio {
  import opened CrcTable

  const POLY: bv16 := 0x8005

  function First(): (row: seq<bv16>)
    ensures |row| == 8
  {
    [0x0000, 0x8005, 0x800f, 0x000a, 0x801b, 0x001e, 0x0014, 0x8011]
  }

  lemma FirstIsTable()
    ensures IsTable(POLY, First())
  {
    FirstEntries(POLY, First());
  }

  method Rows0(tab: seq<bv16>) returns (tab': seq<bv16>)
    requires |tab| == 0 && IsTable(POLY, tab)
    ensures |tab'| == 32 && IsTable(POLY, tab')
  {
    hide IsTable;
    FirstIsTable();
    tab' := tab;
    tab' := AddRow(POLY, First(), tab', 0, 0x00, 0x0000, [0x0000, 0x8005, 0x800f, 0x000a, 0x801b, 0x001e, 0x0014, 0x8011]);
    tab' := AddRow(POLY, First(), tab', 1, 0x01, 0x8033, [0x8033, 0x0036, 0x003c, 0x8039, 0x0028, 0x802d, 0x8027, 0x0022]);
    tab' := AddRow(POLY, First(), tab', 2, 0x02, 0x8063, [0x8063, 0x0066, 0x006c, 0x8069, 0x0078, 0x807d, 0x8077, 0x0072]);
    tab' := AddRow(POLY, First(), tab', 3, 0x03, 0x0050, [0x0050, 0x8055, 0x805f, 0x005a, 0x804b, 0x004e, 0x0044, 0x8041]);
  }

  method Rows1(tab: seq<bv16>) returns (tab': seq<bv16>)
    requires |tab| == 32 && IsTable(POLY, tab)
    ensures |tab'| == 64 && IsTable(POLY, tab')
  {
    hide IsTable;
    FirstIsTable();
    tab' := tab;
    tab' := AddRow(POLY, First(), tab', 4, 0x04, 0x80c3, [0x80c3, 0x00c6, 0x00cc, 0x80c9, 0x00d8, 0x80dd, 0x80d7, 0x00d2]);
    tab' := AddRow(POLY, First(), tab', 5, 0x05, 0x00f0, [0x00f0, 0x80f5, 0x80ff, 0x00fa, 0x80eb, 0x00ee, 0x00e4, 0x80e1]);
    tab' := AddRow(POLY, First(), tab', 6, 0x06, 0x00a0, [0x00a0, 0x80a5, 0x80af, 0x00aa, 0x80bb, 0x00be, 0x00b4, 0x80b1]);
    tab' := AddRow(POLY, First(), tab', 7, 0x07, 0x8093, [0x8093, 0x0096, 0x009c, 0x8099, 0x0088, 0x808d, 0x8087, 0x0082]);
  }

  method Rows2(tab: seq<bv16>) returns (tab': seq<bv16>)
    requires |tab| == 64 && IsTable(POLY, tab)
    ensures |tab'| == 96 && IsTable(POLY, tab')
  {
    hide IsTable;
    FirstIsTable();
    tab' := tab;
    tab' := AddRow(POLY, First(), tab', 8, 0x08, 0x8183, [0x8183, 0x0186, 0x018c, 0x8189, 0x0198, 0x819d, 0x8197, 0x0192]);
    tab' := AddRow(POLY, First(), tab', 9, 0x09, 0x01b0, [0x01b0, 0x81b5, 0x81bf, 0x01ba, 0x81ab, 0x01ae, 0x01a4, 0x81a1]);
    tab' := AddRow(POLY, First(), tab', 10, 0x0a, 0x01e0, [0x01e0, 0x81e5, 0x81ef, 0x01ea, 0x81fb, 0x01fe, 0x01f4, 0x81f1]);
    tab' := AddRow(POLY, First(), tab', 11, 0x0b, 0x81d3, [0x81d3, 0x01d6, 0x01dc, 0x81d9, 0x01c8, 0x81cd, 0x81c7, 0x01c2]);
  }

  method Rows3(tab: seq<bv16>) returns (tab': seq<bv16>)
    requires |tab| == 96 && IsTable(POLY, tab)
    ensures |tab'| == 128 && IsTable(POLY, tab')
  {
    hide IsTable;
    FirstIsTable();
    tab' := tab;
    tab' := AddRow(POLY, First(), tab', 12, 0x0c, 0x0140, [0x0140, 0x8145, 0x814f, 0x014a, 0x815b, 0x015e, 0x0154, 0x8151]);
    tab' := AddRow(POLY, First(), tab', 13, 0x0d, 0x8173, [0x8173, 0x0176, 0x017c, 0x8179, 0x0168, 0x816d, 0x8167, 0x0162]);
    tab' := AddRow(POLY, First(), tab', 14, 0x0e, 0x8123, [0x8123, 0x0126, 0x012c, 0x8129, 0x0138, 0x813d, 0x8137, 0x0132]);
    tab' := AddRow(POLY, First(), tab', 15, 0x0f, 0x0110, [0x0110, 0x8115, 0x811f, 0x011a, 0x810b, 0x010e, 0x0104, 0x8101]);
  }

  method Rows4(tab: seq<bv16>) returns (tab': seq<bv16>)
    requires |tab| == 128 && IsTable(POLY, tab)
    ensures |tab'| == 160 && IsTable(POLY, tab')
  {
    hide IsTable;
    FirstIsTable();
    tab' := tab;
    tab' := AddRow(POLY, First(), tab', 16, 0x10, 0x8303, [0x8303, 0x0306, 0x030c, 0x8309, 0x0318, 0x831d, 0x8317, 0x0312]);
    tab' := AddRow(POLY, First(), tab', 17, 0x11, 0x0330, [0x0330, 0x8335, 0x833f, 0x033a, 0x832b, 0x032e, 0x0324, 0x8321]);
    tab' := AddRow(POLY, First(), tab', 18, 0x12, 0x0360, [0x0360, 0x8365, 0x836f, 0x036a, 0x837b, 0x037e, 0x0374, 0x8371]);
    tab' := AddRow(POLY, First(), tab', 19, 0x13, 0x8353, [0x8353, 0x0356, 0x035c, 0x8359, 0x0348, 0x834d, 0x8347, 0x0342]);
  }

  method Rows5(tab: seq<bv16>) returns (tab': seq<bv16>)
    requires |tab| == 160 && IsTable(POLY, tab)
    ensures |tab'| == 192 && IsTable(POLY, tab')
  {
    hide IsTable;
    FirstIsTable();
    tab' := tab;
    tab' := AddRow(POLY, First(), tab', 20, 0x14, 0x03c0, [0x03c0, 0x83c5, 0x83cf, 0x03ca, 0x83db, 0x03de, 0x03d4, 0x83d1]);
    tab' := AddRow(POLY, First(), tab', 21, 0x15, 0x83f3, [0x83f3, 0x03f6, 0x03fc, 0x83f9, 0x03e8, 0x83ed, 0x83e7, 0x03e2]);
    tab' := AddRow(POLY, First(), tab', 22, 0x16, 0x83a3, [0x83a3, 0x03a6, 0x03ac, 0x83a9, 0x03b8, 0x83bd, 0x83b7, 0x03b2]);
    tab' := AddRow(POLY, First(), tab', 23, 0x17, 0x0390, [0x0390, 0x8395, 0x839f, 0x039a, 0x838b, 0x038e, 0x0384, 0x8381]);
  }

  method Rows6(tab: seq<bv16>) returns (tab': seq<bv16>)
    requires |tab| == 192 && IsTable(POLY, tab)
    ensures |tab'| == 224 && IsTable(POLY, tab')
  {
    hide IsTable;
    FirstIsTable();
    tab' := tab;
    tab' := AddRow(POLY, First(), tab', 24, 0x18, 0x0280, [0x0280, 0x8285, 0x828f, 0x028a, 0x829b, 0x029e, 0x0294, 0x8291]);
    tab' := AddRow(POLY, First(), tab', 25, 0x19, 0x82b3, [0x82b3, 0x02b6, 0x02bc, 0x82b9, 0x02a8, 0x82ad, 0x82a7, 0x02a2]);
    tab' := AddRow(POLY, First(), tab', 26, 0x1a, 0x82e3, [0x82e3, 0x02e6, 0x02ec, 0x82e9, 0x02f8, 0x82fd, 0x82f7, 0x02f2]);
    tab' := AddRow(POLY, First(), tab', 27, 0x1b, 0x02d0, [0x02d0, 0x82d5, 0x82df, 0x02da, 0x82cb, 0x02ce, 0x02c4, 0x82c1]);
  }

  method Rows7(tab: seq<bv16>) returns (tab': seq<bv16>)
    requires |tab| == 224 && IsTable(POLY, tab)
    ensures |tab'| == 256 && IsTable(POLY, tab')
  {
    hide IsTable;
    FirstIsTable();
    tab' := tab;
    tab' := AddRow(POLY, First(), tab', 28, 0x1c, 0x8243, [0x8243, 0x0246, 0x024c, 0x8249, 0x0258, 0x825d, 0x8257, 0x0252]);
    tab' := AddRow(POLY, First(), tab', 29, 0x1d, 0x0270, [0x0270, 0x8275, 0x827f, 0x027a, 0x826b, 0x026e, 0x0264, 0x8261]);
    tab' := AddRow(POLY, First(), tab', 30, 0x1e, 0x0220, [0x0220, 0x8225, 0x822f, 0x022a, 0x823b, 0x023e, 0x0234, 0x8231]);
    tab' := AddRow(POLY, First(), tab', 31, 0x1f, 0x8213, [0x8213, 0x0216, 0x021c, 0x8219, 0x0208, 0x820d, 0x8207, 0x0202]);
  }

  method Table() returns (tab: seq<bv16>)
    ensures |tab| == 256 && IsTable(POLY, tab)
  {
    hide IsTable;
    EmptyTable(POLY);
    tab := [];
    tab := Rows0(tab);
    tab := Rows1(tab);
    tab := Rows2(tab);
    tab := Rows3(tab);
    tab := Rows4(tab);
    tab := Rows5(tab);
    tab := Rows6(tab);
    tab := Rows7(tab);
  }
}
