/** The table for G(x) = x^16 + x^12 + x^5 + 1. */
module CrcCcitt {
  import opened CrcTable

  const POLY: bv16 := 0x1021

  function First(): (row: seq<bv16>)
    ensures |row| == 8
  {
    [0x0000, 0x1021, 0x2042, 0x3063, 0x4084, 0x50a5, 0x60c6, 0x70e7]
  }

  lemma FirstIsTable()
    ensures IsTable(POLY, First())
  {
    FirstEntries(POLY, First());
  }

  method Rows0(tab: seq<bv16>) returns (tab': seq<bv16>)
    requires |tab| == 0 && IsTable(POLY, tab)
    ensures |tab'| == 32 && IsTable(POLY, tab')
  {
    hide IsTable;
    FirstIsTable();
    tab' := tab;
    tab' := AddRow(POLY, First(), tab', 0, 0x00, 0x0000, [0x0000, 0x1021, 0x2042, 0x3063, 0x4084, 0x50a5, 0x60c6, 0x70e7]);
    tab' := AddRow(POLY, First(), tab', 1, 0x01, 0x8108, [0x8108, 0x9129, 0xa14a, 0xb16b, 0xc18c, 0xd1ad, 0xe1ce, 0xf1ef]);
    tab' := AddRow(POLY, First(), tab', 2, 0x02, 0x1231, [0x1231, 0x0210, 0x3273, 0x2252, 0x52b5, 0x4294, 0x72f7, 0x62d6]);
    tab' := AddRow(POLY, First(), tab', 3, 0x03, 0x9339, [0x9339, 0x8318, 0xb37b, 0xa35a, 0xd3bd, 0xc39c, 0xf3ff, 0xe3de]);
  }

  method Rows1(tab: seq<bv16>) returns (tab': seq<bv16>)
    requires |tab| == 32 && IsTable(POLY, tab)
    ensures |tab'| == 64 && IsTable(POLY, tab')
  {
    hide IsTable;
    FirstIsTable();
    tab' := tab;
    tab' := AddRow(POLY, First(), tab', 4, 0x04, 0x2462, [0x2462, 0x3443, 0x0420, 0x1401, 0x64e6, 0x74c7, 0x44a4, 0x5485]);
    tab' := AddRow(POLY, First(), tab', 5, 0x05, 0xa56a, [0xa56a, 0xb54b, 0x8528, 0x9509, 0xe5ee, 0xf5cf, 0xc5ac, 0xd58d]);
    tab' := AddRow(POLY, First(), tab', 6, 0x06, 0x3653, [0x3653, 0x2672, 0x1611, 0x0630, 0x76d7, 0x66f6, 0x5695, 0x46b4]);
    tab' := AddRow(POLY, First(), tab', 7, 0x07, 0xb75b, [0xb75b, 0xa77a, 0x9719, 0x8738, 0xf7df, 0xe7fe, 0xd79d, 0xc7bc]);
  }

  method Rows2(tab: seq<bv16>) returns (tab': seq<bv16>)
    requires |tab| == 64 && IsTable(POLY, tab)
    ensures |tab'| == 96 && IsTable(POLY, tab')
  {
    hide IsTable;
    FirstIsTable();
    tab' := tab;
    tab' := AddRow(POLY, First(), tab', 8, 0x08, 0x48c4, [0x48c4, 0x58e5, 0x6886, 0x78a7, 0x0840, 0x1861, 0x2802, 0x3823]);
    tab' := AddRow(POLY, First(), tab', 9, 0x09, 0xc9cc, [0xc9cc, 0xd9ed, 0xe98e, 0xf9af, 0x8948, 0x9969, 0xa90a, 0xb92b]);
    tab' := AddRow(POLY, First(), tab', 10, 0x0a, 0x5af5, [0x5af5, 0x4ad4, 0x7ab7, 0x6a96, 0x1a71, 0x0a50, 0x3a33, 0x2a12]);
    tab' := AddRow(POLY, First(), tab', 11, 0x0b, 0xdbfd, [0xdbfd, 0xcbdc, 0xfbbf, 0xeb9e, 0x9b79, 0x8b58, 0xbb3b, 0xab1a]);
  }

  method Rows3(tab: seq<bv16>) returns (tab': seq<bv16>)
    requires |tab| == 96 && IsTable(POLY, tab)
    ensures |tab'| == 128 && IsTable(POLY, tab')
  {
    hide IsTable;
    FirstIsTable();
    tab' := tab;
    tab' := AddRow(POLY, First(), tab', 12, 0x0c, 0x6ca6, [0x6ca6, 0x7c87, 0x4ce4, 0x5cc5, 0x2c22, 0x3c03, 0x0c60, 0x1c41]);
    tab' := AddRow(POLY, First(), tab', 13, 0x0d, 0xedae, [0xedae, 0xfd8f, 0xcdec, 0xddcd, 0xad2a, 0xbd0b, 0x8d68, 0x9d49]);
    tab' := AddRow(POLY, First(), tab', 14, 0x0e, 0x7e97, [0x7e97, 0x6eb6, 0x5ed5, 0x4ef4, 0x3e13, 0x2e32, 0x1e51, 0x0e70]);
    tab' := AddRow(POLY, First(), tab', 15, 0x0f, 0xff9f, [0xff9f, 0xefbe, 0xdfdd, 0xcffc, 0xbf1b, 0xaf3a, 0x9f59, 0x8f78]);
  }

  method Rows4(tab: seq<bv16>) returns (tab': seq<bv16>)
    requires |tab| == 128 && IsTable(POLY, tab)
    ensures |tab'| == 160 && IsTable(POLY, tab')
  {
    hide IsTable;
    FirstIsTable();
    tab' := tab;
    tab' := AddRow(POLY, First(), tab', 16, 0x10, 0x9188, [0x9188, 0x81a9, 0xb1ca, 0xa1eb, 0xd10c, 0xc12d, 0xf14e, 0xe16f]);
    tab' := AddRow(POLY, First(), tab', 17, 0x11, 0x1080, [0x1080, 0x00a1, 0x30c2, 0x20e3, 0x5004, 0x4025, 0x7046, 0x6067]);
    tab' := AddRow(POLY, First(), tab', 18, 0x12, 0x83b9, [0x83b9, 0x9398, 0xa3fb, 0xb3da, 0xc33d, 0xd31c, 0xe37f, 0xf35e]);
    tab' := AddRow(POLY, First(), tab', 19, 0x13, 0x02b1, [0x02b1, 0x1290, 0x22f3, 0x32d2, 0x4235, 0x5214, 0x6277, 0x7256]);
  }

  method Rows5(tab: seq<bv16>) returns (tab': seq<bv16>)
    requires |tab| == 160 && IsTable(POLY, tab)
    ensures |tab'| == 192 && IsTable(POLY, tab')
  {
    hide IsTable;
    FirstIsTable();
    tab' := tab;
    tab' := AddRow(POLY, First(), tab', 20, 0x14, 0xb5ea, [0xb5ea, 0xa5cb, 0x95a8, 0x8589, 0xf56e, 0xe54f, 0xd52c, 0xc50d]);
    tab' := AddRow(POLY, First(), tab', 21, 0x15, 0x34e2, [0x34e2, 0x24c3, 0x14a0, 0x0481, 0x7466, 0x6447, 0x5424, 0x4405]);
    tab' := AddRow(POLY, First(), tab', 22, 0x16, 0xa7db, [0xa7db, 0xb7fa, 0x8799, 0x97b8, 0xe75f, 0xf77e, 0xc71d, 0xd73c]);
    tab' := AddRow(POLY, First(), tab', 23, 0x17, 0x26d3, [0x26d3, 0x36f2, 0x0691, 0x16b0, 0x6657, 0x7676, 0x4615, 0x5634]);
  }

  method Rows6(tab: seq<bv16>) returns (tab': seq<bv16>)
    requires |tab| == 192 && IsTable(POLY, tab)
    ensures |tab'| == 224 && IsTable(POLY, tab')
  {
    hide IsTable;
    FirstIsTable();
    tab' := tab;
    tab' := AddRow(POLY, First(), tab', 24, 0x18, 0xd94c, [0xd94c, 0xc96d, 0xf90e, 0xe92f, 0x99c8, 0x89e9, 0xb98a, 0xa9ab]);
    tab' := AddRow(POLY, First(), tab', 25, 0x19, 0x5844, [0x5844, 0x4865, 0x7806, 0x6827, 0x18c0, 0x08e1, 0x3882, 0x28a3]);
    tab' := AddRow(POLY, First(), tab', 26, 0x1a, 0xcb7d, [0xcb7d, 0xdb5c, 0xeb3f, 0xfb1e, 0x8bf9, 0x9bd8, 0xabbb, 0xbb9a]);
    tab' := AddRow(POLY, First(), tab', 27, 0x1b, 0x4a75, [0x4a75, 0x5a54, 0x6a37, 0x7a16, 0x0af1, 0x1ad0, 0x2ab3, 0x3a92]);
  }

  method Rows7(tab: seq<bv16>) returns (tab': seq<bv16>)
    requires |tab| == 224 && IsTable(POLY, tab)
    ensures |tab'| == 256 && IsTable(POLY, tab')
  {
    hide IsTable;
    FirstIsTable();
    tab' := tab;
    tab' := AddRow(POLY, First(), tab', 28, 0x1c, 0xfd2e, [0xfd2e, 0xed0f, 0xdd6c, 0xcd4d, 0xbdaa, 0xad8b, 0x9de8, 0x8dc9]);
    tab' := AddRow(POLY, First(), tab', 29, 0x1d, 0x7c26, [0x7c26, 0x6c07, 0x5c64, 0x4c45, 0x3ca2, 0x2c83, 0x1ce0, 0x0cc1]);
    tab' := AddRow(POLY, First(), tab', 30, 0x1e, 0xef1f, [0xef1f, 0xff3e, 0xcf5d, 0xdf7c, 0xaf9b, 0xbfba, 0x8fd9, 0x9ff8]);
    tab' := AddRow(POLY, First(), tab', 31, 0x1f, 0x6e17, [0x6e17, 0x7e36, 0x4e55, 0x5e74, 0x2e93, 0x3eb2, 0x0ed1, 0x1ef0]);
  }

  method Table() returns (tab: seq<bv16>)
    ensures |tab| == 256 && IsTable(POLY, tab)
  {
    hide IsTable;
    EmptyTable(POLY);
    tab := [];
    tab := Rows0(tab);
    tab := Rows1(tab);
    tab := Rows2(tab);
    tab := Rows3(tab);
    tab := Rows4(tab);
    tab := Rows5(tab);
    tab := Rows6(tab);
    tab := Rows7(tab);
  }
}
