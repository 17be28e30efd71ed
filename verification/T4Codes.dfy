/** The run-length code tables of the T.4 codec (ITU-T T.4, tables 2 and 3; nf_t4.c) and
    the proof that each is prefix-free. */
module T4Codes {
  import opened Arithmetic
  import opened BitIo

  /** A table row: code length in bits, code with its first transmitted bit lowest, run. */
  datatype Rte = Rte(length: nat, code: nat, run: nat)

  const TABLE_LEN: nat := 104
  const LONGEST: nat := 13

  /** Terminating white codes, runs 0 to 63 (white_codes[0..63]). */
  function WhiteTerminating(i: nat): Rte
    requires i < 64
  {
    match i
    case 0 => Rte(8, 0x00AC, 0) case 1 => Rte(6, 0x0038, 1) case 2 => Rte(4, 0x000E, 2)
    case 3 => Rte(4, 0x0001, 3) case 4 => Rte(4, 0x000D, 4) case 5 => Rte(4, 0x0003, 5)
    case 6 => Rte(4, 0x0007, 6) case 7 => Rte(4, 0x000F, 7) case 8 => Rte(5, 0x0019, 8)
    case 9 => Rte(5, 0x0005, 9) case 10 => Rte(5, 0x001C, 10) case 11 => Rte(5, 0x0002, 11)
    case 12 => Rte(6, 0x0004, 12) case 13 => Rte(6, 0x0030, 13) case 14 => Rte(6, 0x000B, 14)
    case 15 => Rte(6, 0x002B, 15) case 16 => Rte(6, 0x0015, 16) case 17 => Rte(6, 0x0035, 17)
    case 18 => Rte(7, 0x0072, 18) case 19 => Rte(7, 0x0018, 19) case 20 => Rte(7, 0x0008, 20)
    case 21 => Rte(7, 0x0074, 21) case 22 => Rte(7, 0x0060, 22) case 23 => Rte(7, 0x0010, 23)
    case 24 => Rte(7, 0x000A, 24) case 25 => Rte(7, 0x006A, 25) case 26 => Rte(7, 0x0064, 26)
    case 27 => Rte(7, 0x0012, 27) case 28 => Rte(7, 0x000C, 28) case 29 => Rte(8, 0x0040, 29)
    case 30 => Rte(8, 0x00C0, 30) case 31 => Rte(8, 0x0058, 31) case 32 => Rte(8, 0x00D8, 32)
    case 33 => Rte(8, 0x0048, 33) case 34 => Rte(8, 0x00C8, 34) case 35 => Rte(8, 0x0028, 35)
    case 36 => Rte(8, 0x00A8, 36) case 37 => Rte(8, 0x0068, 37) case 38 => Rte(8, 0x00E8, 38)
    case 39 => Rte(8, 0x0014, 39) case 40 => Rte(8, 0x0094, 40) case 41 => Rte(8, 0x0054, 41)
    case 42 => Rte(8, 0x00D4, 42) case 43 => Rte(8, 0x0034, 43) case 44 => Rte(8, 0x00B4, 44)
    case 45 => Rte(8, 0x0020, 45) case 46 => Rte(8, 0x00A0, 46) case 47 => Rte(8, 0x0050, 47)
    case 48 => Rte(8, 0x00D0, 48) case 49 => Rte(8, 0x004A, 49) case 50 => Rte(8, 0x00CA, 50)
    case 51 => Rte(8, 0x002A, 51) case 52 => Rte(8, 0x00AA, 52) case 53 => Rte(8, 0x0024, 53)
    case 54 => Rte(8, 0x00A4, 54) case 55 => Rte(8, 0x001A, 55) case 56 => Rte(8, 0x009A, 56)
    case 57 => Rte(8, 0x005A, 57) case 58 => Rte(8, 0x00DA, 58) case 59 => Rte(8, 0x0052, 59)
    case 60 => Rte(8, 0x00D2, 60) case 61 => Rte(8, 0x004C, 61) case 62 => Rte(8, 0x00CC, 62)
    case _ => Rte(8, 0x002C, 63)
  }

  /** Make-up white codes, runs 64 to 2560 (white_codes[64..103]). */
  function WhiteMakeUp(i: nat): Rte
    requires i < 40
  {
    match i
    case 0 => Rte(5, 0x001B, 64) case 1 => Rte(5, 0x0009, 128) case 2 => Rte(6, 0x003A, 192)
    case 3 => Rte(7, 0x0076, 256) case 4 => Rte(8, 0x006C, 320) case 5 => Rte(8, 0x00EC, 384)
    case 6 => Rte(8, 0x0026, 448) case 7 => Rte(8, 0x00A6, 512) case 8 => Rte(8, 0x0016, 576)
    case 9 => Rte(8, 0x00E6, 640) case 10 => Rte(9, 0x0066, 704) case 11 => Rte(9, 0x0166, 768)
    case 12 => Rte(9, 0x0096, 832) case 13 => Rte(9, 0x0196, 896) case 14 => Rte(9, 0x0056, 960)
    case 15 => Rte(9, 0x0156, 1024) case 16 => Rte(9, 0x00D6, 1088) case 17 => Rte(9, 0x01D6, 1152)
    case 18 => Rte(9, 0x0036, 1216) case 19 => Rte(9, 0x0136, 1280) case 20 => Rte(9, 0x00B6, 1344)
    case 21 => Rte(9, 0x01B6, 1408) case 22 => Rte(9, 0x0032, 1472) case 23 => Rte(9, 0x0132, 1536)
    case 24 => Rte(9, 0x00B2, 1600) case 25 => Rte(6, 0x0006, 1664) case 26 => Rte(9, 0x01B2, 1728)
    case 27 => Rte(11, 0x0080, 1792) case 28 => Rte(11, 0x0180, 1856) case 29 => Rte(11, 0x0580, 1920)
    case 30 => Rte(12, 0x0480, 1984) case 31 => Rte(12, 0x0C80, 2048) case 32 => Rte(12, 0x0280, 2112)
    case 33 => Rte(12, 0x0A80, 2176) case 34 => Rte(12, 0x0680, 2240) case 35 => Rte(12, 0x0E80, 2304)
    case 36 => Rte(12, 0x0380, 2368) case 37 => Rte(12, 0x0B80, 2432) case 38 => Rte(12, 0x0780, 2496)
    case _ => Rte(12, 0x0F80, 2560)
  }

  /** Terminating black codes, runs 0 to 63 (black_codes[0..63]). */
  function BlackTerminating(i: nat): Rte
    requires i < 64
  {
    match i
    case 0 => Rte(10, 0x03B0, 0) case 1 => Rte(3, 0x0002, 1) case 2 => Rte(2, 0x0003, 2)
    case 3 => Rte(2, 0x0001, 3) case 4 => Rte(3, 0x0006, 4) case 5 => Rte(4, 0x000C, 5)
    case 6 => Rte(4, 0x0004, 6) case 7 => Rte(5, 0x0018, 7) case 8 => Rte(6, 0x0028, 8)
    case 9 => Rte(6, 0x0008, 9) case 10 => Rte(7, 0x0010, 10) case 11 => Rte(7, 0x0050, 11)
    case 12 => Rte(7, 0x0070, 12) case 13 => Rte(8, 0x0020, 13) case 14 => Rte(8, 0x00E0, 14)
    case 15 => Rte(9, 0x0030, 15) case 16 => Rte(10, 0x03A0, 16) case 17 => Rte(10, 0x0060, 17)
    case 18 => Rte(10, 0x0040, 18) case 19 => Rte(11, 0x0730, 19) case 20 => Rte(11, 0x00B0, 20)
    case 21 => Rte(11, 0x01B0, 21) case 22 => Rte(11, 0x0760, 22) case 23 => Rte(11, 0x00A0, 23)
    case 24 => Rte(11, 0x0740, 24) case 25 => Rte(11, 0x00C0, 25) case 26 => Rte(12, 0x0530, 26)
    case 27 => Rte(12, 0x0D30, 27) case 28 => Rte(12, 0x0330, 28) case 29 => Rte(12, 0x0B30, 29)
    case 30 => Rte(12, 0x0160, 30) case 31 => Rte(12, 0x0960, 31) case 32 => Rte(12, 0x0560, 32)
    case 33 => Rte(12, 0x0D60, 33) case 34 => Rte(12, 0x04B0, 34) case 35 => Rte(12, 0x0CB0, 35)
    case 36 => Rte(12, 0x02B0, 36) case 37 => Rte(12, 0x0AB0, 37) case 38 => Rte(12, 0x06B0, 38)
    case 39 => Rte(12, 0x0EB0, 39) case 40 => Rte(12, 0x0360, 40) case 41 => Rte(12, 0x0B60, 41)
    case 42 => Rte(12, 0x05B0, 42) case 43 => Rte(12, 0x0DB0, 43) case 44 => Rte(12, 0x02A0, 44)
    case 45 => Rte(12, 0x0AA0, 45) case 46 => Rte(12, 0x06A0, 46) case 47 => Rte(12, 0x0EA0, 47)
    case 48 => Rte(12, 0x0260, 48) case 49 => Rte(12, 0x0A60, 49) case 50 => Rte(12, 0x04A0, 50)
    case 51 => Rte(12, 0x0CA0, 51) case 52 => Rte(12, 0x0240, 52) case 53 => Rte(12, 0x0EC0, 53)
    case 54 => Rte(12, 0x01C0, 54) case 55 => Rte(12, 0x0E40, 55) case 56 => Rte(12, 0x0140, 56)
    case 57 => Rte(12, 0x01A0, 57) case 58 => Rte(12, 0x09A0, 58) case 59 => Rte(12, 0x0D40, 59)
    case 60 => Rte(12, 0x0340, 60) case 61 => Rte(12, 0x05A0, 61) case 62 => Rte(12, 0x0660, 62)
    case _ => Rte(12, 0x0E60, 63)
  }

  /** Make-up black codes, runs 64 to 2560 (black_codes[64..103]). */
  function BlackMakeUp(i: nat): Rte
    requires i < 40
  {
    match i
    case 0 => Rte(10, 0x03C0, 64) case 1 => Rte(12, 0x0130, 128) case 2 => Rte(12, 0x0930, 192)
    case 3 => Rte(12, 0x0DA0, 256) case 4 => Rte(12, 0x0CC0, 320) case 5 => Rte(12, 0x02C0, 384)
    case 6 => Rte(12, 0x0AC0, 448) case 7 => Rte(13, 0x06C0, 512) case 8 => Rte(13, 0x16C0, 576)
    case 9 => Rte(13, 0x0A40, 640) case 10 => Rte(13, 0x1A40, 704) case 11 => Rte(13, 0x0640, 768)
    case 12 => Rte(13, 0x1640, 832) case 13 => Rte(13, 0x09C0, 896) case 14 => Rte(13, 0x19C0, 960)
    case 15 => Rte(13, 0x05C0, 1024) case 16 => Rte(13, 0x15C0, 1088) case 17 => Rte(13, 0x0DC0, 1152)
    case 18 => Rte(13, 0x1DC0, 1216) case 19 => Rte(13, 0x0940, 1280) case 20 => Rte(13, 0x1940, 1344)
    case 21 => Rte(13, 0x0540, 1408) case 22 => Rte(13, 0x1540, 1472) case 23 => Rte(13, 0x0B40, 1536)
    case 24 => Rte(13, 0x1B40, 1600) case 25 => Rte(13, 0x04C0, 1664) case 26 => Rte(13, 0x14C0, 1728)
    case 27 => Rte(11, 0x0080, 1792) case 28 => Rte(11, 0x0180, 1856) case 29 => Rte(11, 0x0580, 1920)
    case 30 => Rte(12, 0x0480, 1984) case 31 => Rte(12, 0x0C80, 2048) case 32 => Rte(12, 0x0280, 2112)
    case 33 => Rte(12, 0x0A80, 2176) case 34 => Rte(12, 0x0680, 2240) case 35 => Rte(12, 0x0E80, 2304)
    case 36 => Rte(12, 0x0380, 2368) case 37 => Rte(12, 0x0B80, 2432) case 38 => Rte(12, 0x0780, 2496)
    case _ => Rte(12, 0x0F80, 2560)
  }

  function Entry(black: bool, i: nat): Rte
    requires i < TABLE_LEN
  {
    if i < 64 then (if black then BlackTerminating(i) else WhiteTerminating(i))
    else if black then BlackMakeUp(i - 64)
    else WhiteMakeUp(i - 64)
  }

  /** A row's code as it goes on the line. */
  function CodeBits(black: bool, i: nat): Bits
    requires i < TABLE_LEN
  {
    LsbBits(Entry(black, i).code, Entry(black, i).length)
  }

  // ---------------------------------------------------------------- the code tree

  /** The table row whose code `b` begins with (104: none).  A function of the bits, so two
      rows that match the same bits are the same row. */
  function WhiteSlot(b: Bits): nat
    requires |b| >= LONGEST
  {
    if b[0] then
      if b[1] then
        if b[2] then
          if b[3] then 7 else 6
        else
          if b[3] then
            if b[4] then 64 else
            if b[5] then 15 else 14
          else 5
      else
        if b[2] then
          if b[3] then 4 else
          if b[4] then
              if b[5] then 17 else 16
            else 9
        else
          if b[3] then
            if b[4] then 8 else 65
          else 3
    else
      if b[1] then
        if b[2] then
          if b[3] then 2 else
          if b[4] then
              if b[5] then
                if b[6] then 67 else
                if b[7] then
                    if b[8] then 85 else 84
                  else
                    if b[8] then 83 else 82
              else
                if b[6] then
                  if b[7] then
                    if b[8] then 81 else 80
                  else
                    if b[8] then 79 else 78
                else
                  if b[7] then
                    if b[8] then 77 else 76
                  else 72
            else
              if b[5] then
                if b[6] then
                  if b[7] then 73 else
                  if b[8] then 75 else 74
                else
                  if b[7] then 71 else 70
              else 89
        else
          if b[3] then
            if b[4] then
              if b[5] then 66 else
              if b[6] then
                  if b[7] then 58 else 57
                else
                  if b[7] then 56 else 55
            else
              if b[5] then
                if b[6] then 25 else
                if b[7] then 52 else 51
              else
                if b[6] then
                  if b[7] then 50 else 49
                else 24
          else
            if b[4] then
              if b[5] then
                if b[6] then 18 else
                if b[7] then
                    if b[8] then 90 else 88
                  else
                    if b[8] then 87 else 86
              else
                if b[6] then
                  if b[7] then 60 else 59
                else 27
            else 11
      else
        if b[2] then
          if b[3] then
            if b[4] then 10 else
            if b[5] then
                if b[6] then
                  if b[7] then 69 else 68
                else
                  if b[7] then 0 else 63
              else
                if b[6] then
                  if b[7] then 62 else 61
                else 28
          else
            if b[4] then
              if b[5] then
                if b[6] then 21 else
                if b[7] then 44 else 43
              else
                if b[6] then
                  if b[7] then 42 else 41
                else
                  if b[7] then 40 else 39
            else
              if b[5] then
                if b[6] then 26 else
                if b[7] then 54 else 53
              else 12
        else
          if b[3] then
            if b[4] then
              if b[5] then 1 else
              if b[6] then
                  if b[7] then 32 else 31
                else 19
            else
              if b[5] then
                if b[6] then
                  if b[7] then 38 else 37
                else
                  if b[7] then 36 else 35
              else
                if b[6] then
                  if b[7] then 34 else 33
                else 20
          else
            if b[4] then
              if b[5] then 13 else
              if b[6] then
                  if b[7] then 48 else 47
                else 23
            else
              if b[5] then
                if b[6] then 22 else
                if b[7] then 46 else 45
              else
                if b[6] then
                  if b[7] then 30 else 29
                else
                  if b[7] then
                    if b[8] then
                      if b[9] then
                        if b[10] then
                          if b[11] then 103 else 102
                        else
                          if b[11] then 101 else 100
                      else
                        if b[10] then 93 else 92
                    else
                      if b[9] then
                        if b[10] then
                          if b[11] then 99 else 98
                        else
                          if b[11] then 97 else 96
                      else
                        if b[10] then
                          if b[11] then 95 else 94
                        else 91
                  else 104
  }

  function BlackSlot(b: Bits): nat
    requires |b| >= LONGEST
  {
    if b[0] then
      if b[1] then 2 else 3
    else
      if b[1] then
        if b[2] then 4 else 1
      else
        if b[2] then
          if b[3] then 5 else 6
        else
          if b[3] then
            if b[4] then 7 else
            if b[5] then 8 else 9
          else
            if b[4] then
              if b[5] then
                if b[6] then 12 else
                if b[7] then
                    if b[8] then
                      if b[9] then 0 else
                      if b[10] then
                          if b[11] then 43 else 42
                        else 21
                    else
                      if b[9] then
                        if b[10] then
                          if b[11] then 39 else 38
                        else
                          if b[11] then 37 else 36
                      else
                        if b[10] then
                          if b[11] then 35 else 34
                        else 20
                  else
                    if b[8] then
                      if b[9] then
                        if b[10] then 19 else
                        if b[11] then 29 else 28
                      else
                        if b[10] then
                          if b[11] then 27 else 26
                        else
                          if b[11] then 66 else 65
                    else 15
              else
                if b[6] then 11 else 10
            else
              if b[5] then
                if b[6] then
                  if b[7] then 14 else
                  if b[8] then
                      if b[9] then
                        if b[10] then 22 else
                        if b[11] then 41 else 40
                      else
                        if b[10] then
                          if b[11] then 33 else 32
                        else
                          if b[11] then 31 else 30
                    else
                      if b[9] then
                        if b[10] then
                          if b[11] then 63 else 62
                        else
                          if b[11] then 49 else 48
                      else 17
                else
                  if b[7] then
                    if b[8] then
                      if b[9] then 16 else
                      if b[10] then
                          if b[11] then 67 else 61
                        else
                          if b[11] then 58 else 57
                    else
                      if b[9] then
                        if b[10] then
                          if b[11] then 47 else 46
                        else
                          if b[11] then 45 else 44
                      else
                        if b[10] then
                          if b[11] then 51 else 50
                        else 23
                  else 13
              else
                if b[6] then
                  if b[7] then
                    if b[8] then
                      if b[9] then 64 else
                      if b[10] then
                          if b[11] then
                            if b[12] then 82 else 81
                          else
                            if b[12] then 80 else 79
                        else
                          if b[11] then
                            if b[12] then 78 else 77
                          else 54
                    else
                      if b[9] then
                        if b[10] then
                          if b[11] then 53 else
                          if b[12] then 72 else 71
                        else
                          if b[11] then 70 else 69
                      else
                        if b[10] then
                          if b[11] then 68 else
                          if b[12] then 90 else 89
                        else 25
                  else
                    if b[8] then
                      if b[9] then
                        if b[10] then 24 else
                        if b[11] then
                            if b[12] then 88 else 87
                          else 60
                      else
                        if b[10] then
                          if b[11] then 59 else
                          if b[12] then 86 else 85
                        else
                          if b[11] then
                            if b[12] then 84 else 83
                          else 56
                    else
                      if b[9] then
                        if b[10] then
                          if b[11] then 55 else
                          if b[12] then 76 else 75
                        else
                          if b[11] then
                            if b[12] then 74 else 73
                          else 52
                      else 18
                else
                  if b[7] then
                    if b[8] then
                      if b[9] then
                        if b[10] then
                          if b[11] then 103 else 102
                        else
                          if b[11] then 101 else 100
                      else
                        if b[10] then 93 else 92
                    else
                      if b[9] then
                        if b[10] then
                          if b[11] then 99 else 98
                        else
                          if b[11] then 97 else 96
                      else
                        if b[10] then
                          if b[11] then 95 else 94
                        else 91
                  else 104
  }

  function Slot(black: bool, b: Bits): nat
    requires |b| >= LONGEST
  {
    if black then BlackSlot(b) else WhiteSlot(b)
  }

  /** `b` begins with the `n` low bits of `c`, spelled out. */
  ghost predicate BeginsWith(b: Bits, c: nat, n: nat)
    requires |b| >= LONGEST && n <= LONGEST
  {
    && (n > 0 ==> b[0] == (c % 2 == 1)) && (n > 1 ==> b[1] == ((c / 2) % 2 == 1))
    && (n > 2 ==> b[2] == ((c / 4) % 2 == 1)) && (n > 3 ==> b[3] == ((c / 8) % 2 == 1))
    && (n > 4 ==> b[4] == ((c / 16) % 2 == 1)) && (n > 5 ==> b[5] == ((c / 32) % 2 == 1))
    && (n > 6 ==> b[6] == ((c / 64) % 2 == 1)) && (n > 7 ==> b[7] == ((c / 128) % 2 == 1))
    && (n > 8 ==> b[8] == ((c / 256) % 2 == 1)) && (n > 9 ==> b[9] == ((c / 512) % 2 == 1))
    && (n > 10 ==> b[10] == ((c / 1024) % 2 == 1)) && (n > 11 ==> b[11] == ((c / 2048) % 2 == 1))
    && (n > 12 ==> b[12] == ((c / 4096) % 2 == 1))
  }

  /** Number of codes of `n` bits. */
  function Size(n: nat): nat {
    match n
    case 0 => 1 case 1 => 2 case 2 => 4 case 3 => 8 case 4 => 16 case 5 => 32 case 6 => 64 case 7 => 128
    case 8 => 256 case 9 => 512 case 10 => 1024 case 11 => 2048 case 12 => 4096 case _ => 8192
  }

  lemma SizeIsPower(n: nat)
    requires n <= LONGEST
    ensures Size(n) == Pow(2, n)
  {
    SmallPowers();
    PowStep(13);
    hide Pow;
  }

  /** The row is well formed (code within its length, run by index, a one among the first
      eight bits of a white code), and any bits beginning with its code are sorted to it. */
  ghost predicate RowInTree(black: bool, i: nat, b: Bits)
    requires i < TABLE_LEN && |b| >= LONGEST
  {
    var e := Entry(black, i);
    && 1 <= e.length <= LONGEST
    && e.code < Size(e.length)
    && e.run == (if i < 64 then i else 64 * (i - 63))
    && (!black ==> 0 < e.code % 256)
    && (BeginsWith(b, e.code, e.length) ==> Slot(black, b) == i)
  }

  lemma WhiteRows0(i: nat, b: Bits) requires 0 <= i < 8 && |b| >= LONGEST ensures RowInTree(false, i, b) { }
  lemma WhiteRows8(i: nat, b: Bits) requires 8 <= i < 16 && |b| >= LONGEST ensures RowInTree(false, i, b) { }
  lemma WhiteRows16(i: nat, b: Bits) requires 16 <= i < 24 && |b| >= LONGEST ensures RowInTree(false, i, b) { }
  lemma WhiteRows24(i: nat, b: Bits) requires 24 <= i < 32 && |b| >= LONGEST ensures RowInTree(false, i, b) { }
  lemma WhiteRows32(i: nat, b: Bits) requires 32 <= i < 40 && |b| >= LONGEST ensures RowInTree(false, i, b) { }
  lemma WhiteRows40(i: nat, b: Bits) requires 40 <= i < 48 && |b| >= LONGEST ensures RowInTree(false, i, b) { }
  lemma WhiteRows48(i: nat, b: Bits) requires 48 <= i < 56 && |b| >= LONGEST ensures RowInTree(false, i, b) { }
  lemma WhiteRows56(i: nat, b: Bits) requires 56 <= i < 64 && |b| >= LONGEST ensures RowInTree(false, i, b) { }
  lemma WhiteRows64(i: nat, b: Bits) requires 64 <= i < 72 && |b| >= LONGEST ensures RowInTree(false, i, b) { }
  lemma WhiteRows72(i: nat, b: Bits) requires 72 <= i < 80 && |b| >= LONGEST ensures RowInTree(false, i, b) { }
  lemma WhiteRows80(i: nat, b: Bits) requires 80 <= i < 88 && |b| >= LONGEST ensures RowInTree(false, i, b) { }
  lemma WhiteRows88(i: nat, b: Bits) requires 88 <= i < 96 && |b| >= LONGEST ensures RowInTree(false, i, b) { }
  lemma WhiteRows96(i: nat, b: Bits) requires 96 <= i < 104 && |b| >= LONGEST ensures RowInTree(false, i, b) { }
  lemma BlackRows0(i: nat, b: Bits) requires 0 <= i < 8 && |b| >= LONGEST ensures RowInTree(true, i, b) { }
  lemma BlackRows8(i: nat, b: Bits) requires 8 <= i < 16 && |b| >= LONGEST ensures RowInTree(true, i, b) { }
  lemma BlackRows16(i: nat, b: Bits) requires 16 <= i < 24 && |b| >= LONGEST ensures RowInTree(true, i, b) { }
  lemma BlackRows24(i: nat, b: Bits) requires 24 <= i < 32 && |b| >= LONGEST ensures RowInTree(true, i, b) { }
  lemma BlackRows32(i: nat, b: Bits) requires 32 <= i < 40 && |b| >= LONGEST ensures RowInTree(true, i, b) { }
  lemma BlackRows40(i: nat, b: Bits) requires 40 <= i < 48 && |b| >= LONGEST ensures RowInTree(true, i, b) { }
  lemma BlackRows48(i: nat, b: Bits) requires 48 <= i < 56 && |b| >= LONGEST ensures RowInTree(true, i, b) { }
  lemma BlackRows56(i: nat, b: Bits) requires 56 <= i < 64 && |b| >= LONGEST ensures RowInTree(true, i, b) { }
  lemma BlackRows64(i: nat, b: Bits) requires 64 <= i < 72 && |b| >= LONGEST ensures RowInTree(true, i, b) { }
  lemma BlackRows72(i: nat, b: Bits) requires 72 <= i < 80 && |b| >= LONGEST ensures RowInTree(true, i, b) { }
  lemma BlackRows80(i: nat, b: Bits) requires 80 <= i < 88 && |b| >= LONGEST ensures RowInTree(true, i, b) { }
  lemma BlackRows88(i: nat, b: Bits) requires 88 <= i < 96 && |b| >= LONGEST ensures RowInTree(true, i, b) { }
  lemma BlackRows96(i: nat, b: Bits) requires 96 <= i < 104 && |b| >= LONGEST ensures RowInTree(true, i, b) { }

  lemma RowsInTree(black: bool, i: nat, b: Bits)
    requires i < TABLE_LEN && |b| >= LONGEST
    ensures RowInTree(black, i, b)
  {
    hide RowInTree;
    if black {
      if i < 8 { BlackRows0(i, b); }
      else if i < 16 { BlackRows8(i, b); } else if i < 24 { BlackRows16(i, b); } else if i < 32 { BlackRows24(i, b); }
      else if i < 40 { BlackRows32(i, b); } else if i < 48 { BlackRows40(i, b); } else if i < 56 { BlackRows48(i, b); }
      else if i < 64 { BlackRows56(i, b); } else if i < 72 { BlackRows64(i, b); } else if i < 80 { BlackRows72(i, b); }
      else if i < 88 { BlackRows80(i, b); } else if i < 96 { BlackRows88(i, b); }
      else { BlackRows96(i, b); }
    } else {
      if i < 8 { WhiteRows0(i, b); }
      else if i < 16 { WhiteRows8(i, b); } else if i < 24 { WhiteRows16(i, b); } else if i < 32 { WhiteRows24(i, b); }
      else if i < 40 { WhiteRows32(i, b); } else if i < 48 { WhiteRows40(i, b); } else if i < 56 { WhiteRows48(i, b); }
      else if i < 64 { WhiteRows56(i, b); } else if i < 72 { WhiteRows64(i, b); } else if i < 80 { WhiteRows72(i, b); }
      else if i < 88 { WhiteRows80(i, b); } else if i < 96 { WhiteRows88(i, b); }
      else { WhiteRows96(i, b); }
    }
  }

  // ---------------------------------------------------------------- prefix-freeness

  lemma SpelledOut(b: Bits, c: nat, n: nat)
    requires |b| >= LONGEST && n <= LONGEST
    requires LsbBits(c, n) <= b
    ensures BeginsWith(b, c, n)
  {
    hide LsbBits, Pow;
    SmallPowers();
    forall k | 0 <= k < n
      ensures b[k] == ((c / Pow(2, k)) % 2 == 1)
    {
      LsbBitAt(c, n, k);
      assert b[k] == LsbBits(c, n)[k];
    }
  }

  /** No code is the beginning of another of the same colour. */
  lemma PrefixFree(black: bool, i: nat, j: nat)
    requires i < TABLE_LEN && j < TABLE_LEN
    requires CodeBits(black, i) <= CodeBits(black, j)
    ensures i == j
  {
    var b := CodeBits(black, j) + seq(LONGEST, _ => false);
    RowsInTree(black, i, b);
    RowsInTree(black, j, b);
    hide Entry, LsbBits, Slot, BeginsWith;
    assert CodeBits(black, j) <= b;
    SpelledOut(b, Entry(black, i).code, Entry(black, i).length);
    SpelledOut(b, Entry(black, j).code, Entry(black, j).length);
  }
}
