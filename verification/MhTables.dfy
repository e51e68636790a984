/**
 The two run-length code tables of src/t38/t4.rs (ITU-T T.4, Table 2 and Table 3), row by row, and why they can be
 decoded: seen as the leading bits of a 13-bit window, no two codewords of one colour can start the same window.
 */
module MhTables {

  /** `len` bits of `code`, most significant first, stand for a run of `run` pixels. */
  datatype Code = Code(len: nat, code: nat, run: nat)

  const CODES := 104

  /** Row `i` of the table of one colour: rows 0 to 63 are the terminating codes, the rest the make-up codes. */
  function Row(white: bool, i: nat): (c: Code)
    requires i < CODES
  {
    if white then White(i) else Black(i)
  }

  function White(i: nat): (c: Code)
    requires i < CODES
  {
    match i
    case 0 => Code(8, 53, 0)
    case 1 => Code(6, 7, 1)
    case 2 => Code(4, 7, 2)
    case 3 => Code(4, 8, 3)
    case 4 => Code(4, 11, 4)
    case 5 => Code(4, 12, 5)
    case 6 => Code(4, 14, 6)
    case 7 => Code(4, 15, 7)
    case 8 => Code(5, 19, 8)
    case 9 => Code(5, 20, 9)
    case 10 => Code(5, 7, 10)
    case 11 => Code(5, 8, 11)
    case 12 => Code(6, 8, 12)
    case 13 => Code(6, 3, 13)
    case 14 => Code(6, 52, 14)
    case 15 => Code(6, 53, 15)
    case 16 => Code(6, 42, 16)
    case 17 => Code(6, 43, 17)
    case 18 => Code(7, 39, 18)
    case 19 => Code(7, 12, 19)
    case 20 => Code(7, 8, 20)
    case 21 => Code(7, 23, 21)
    case 22 => Code(7, 3, 22)
    case 23 => Code(7, 4, 23)
    case 24 => Code(7, 40, 24)
    case 25 => Code(7, 43, 25)
    case 26 => Code(7, 19, 26)
    case 27 => Code(7, 36, 27)
    case 28 => Code(7, 24, 28)
    case 29 => Code(8, 2, 29)
    case 30 => Code(8, 3, 30)
    case 31 => Code(8, 26, 31)
    case 32 => Code(8, 27, 32)
    case 33 => Code(8, 18, 33)
    case 34 => Code(8, 19, 34)
    case 35 => Code(8, 20, 35)
    case 36 => Code(8, 21, 36)
    case 37 => Code(8, 22, 37)
    case 38 => Code(8, 23, 38)
    case 39 => Code(8, 40, 39)
    case 40 => Code(8, 41, 40)
    case 41 => Code(8, 42, 41)
    case 42 => Code(8, 43, 42)
    case 43 => Code(8, 44, 43)
    case 44 => Code(8, 45, 44)
    case 45 => Code(8, 4, 45)
    case 46 => Code(8, 5, 46)
    case 47 => Code(8, 10, 47)
    case 48 => Code(8, 11, 48)
    case 49 => Code(8, 82, 49)
    case 50 => Code(8, 83, 50)
    case 51 => Code(8, 84, 51)
    case 52 => Code(8, 85, 52)
    case 53 => Code(8, 36, 53)
    case 54 => Code(8, 37, 54)
    case 55 => Code(8, 88, 55)
    case 56 => Code(8, 89, 56)
    case 57 => Code(8, 90, 57)
    case 58 => Code(8, 91, 58)
    case 59 => Code(8, 74, 59)
    case 60 => Code(8, 75, 60)
    case 61 => Code(8, 50, 61)
    case 62 => Code(8, 51, 62)
    case 63 => Code(8, 52, 63)
    case 64 => Code(5, 27, 64)
    case 65 => Code(5, 18, 128)
    case 66 => Code(6, 23, 192)
    case 67 => Code(7, 55, 256)
    case 68 => Code(8, 54, 320)
    case 69 => Code(8, 55, 384)
    case 70 => Code(8, 100, 448)
    case 71 => Code(8, 101, 512)
    case 72 => Code(8, 104, 576)
    case 73 => Code(8, 103, 640)
    case 74 => Code(9, 204, 704)
    case 75 => Code(9, 205, 768)
    case 76 => Code(9, 210, 832)
    case 77 => Code(9, 211, 896)
    case 78 => Code(9, 212, 960)
    case 79 => Code(9, 213, 1024)
    case 80 => Code(9, 214, 1088)
    case 81 => Code(9, 215, 1152)
    case 82 => Code(9, 216, 1216)
    case 83 => Code(9, 217, 1280)
    case 84 => Code(9, 218, 1344)
    case 85 => Code(9, 219, 1408)
    case 86 => Code(9, 152, 1472)
    case 87 => Code(9, 153, 1536)
    case 88 => Code(9, 154, 1600)
    case 89 => Code(6, 24, 1664)
    case 90 => Code(9, 155, 1728)
    case 91 => Code(11, 8, 1792)
    case 92 => Code(11, 12, 1856)
    case 93 => Code(11, 13, 1920)
    case 94 => Code(12, 18, 1984)
    case 95 => Code(12, 19, 2048)
    case 96 => Code(12, 20, 2112)
    case 97 => Code(12, 21, 2176)
    case 98 => Code(12, 22, 2240)
    case 99 => Code(12, 23, 2304)
    case 100 => Code(12, 28, 2368)
    case 101 => Code(12, 29, 2432)
    case 102 => Code(12, 30, 2496)
    case _ => Code(12, 31, 2560)
  }

  function Black(i: nat): (c: Code)
    requires i < CODES
  {
    match i
    case 0 => Code(10, 55, 0)
    case 1 => Code(3, 2, 1)
    case 2 => Code(2, 3, 2)
    case 3 => Code(2, 2, 3)
    case 4 => Code(3, 3, 4)
    case 5 => Code(4, 3, 5)
    case 6 => Code(4, 2, 6)
    case 7 => Code(5, 3, 7)
    case 8 => Code(6, 5, 8)
    case 9 => Code(6, 4, 9)
    case 10 => Code(7, 4, 10)
    case 11 => Code(7, 5, 11)
    case 12 => Code(7, 7, 12)
    case 13 => Code(8, 4, 13)
    case 14 => Code(8, 7, 14)
    case 15 => Code(9, 24, 15)
    case 16 => Code(10, 23, 16)
    case 17 => Code(10, 24, 17)
    case 18 => Code(10, 8, 18)
    case 19 => Code(11, 103, 19)
    case 20 => Code(11, 104, 20)
    case 21 => Code(11, 108, 21)
    case 22 => Code(11, 55, 22)
    case 23 => Code(11, 40, 23)
    case 24 => Code(11, 23, 24)
    case 25 => Code(11, 24, 25)
    case 26 => Code(12, 202, 26)
    case 27 => Code(12, 203, 27)
    case 28 => Code(12, 204, 28)
    case 29 => Code(12, 205, 29)
    case 30 => Code(12, 104, 30)
    case 31 => Code(12, 105, 31)
    case 32 => Code(12, 106, 32)
    case 33 => Code(12, 107, 33)
    case 34 => Code(12, 210, 34)
    case 35 => Code(12, 211, 35)
    case 36 => Code(12, 212, 36)
    case 37 => Code(12, 213, 37)
    case 38 => Code(12, 214, 38)
    case 39 => Code(12, 215, 39)
    case 40 => Code(12, 108, 40)
    case 41 => Code(12, 109, 41)
    case 42 => Code(12, 218, 42)
    case 43 => Code(12, 219, 43)
    case 44 => Code(12, 84, 44)
    case 45 => Code(12, 85, 45)
    case 46 => Code(12, 86, 46)
    case 47 => Code(12, 87, 47)
    case 48 => Code(12, 100, 48)
    case 49 => Code(12, 101, 49)
    case 50 => Code(12, 82, 50)
    case 51 => Code(12, 83, 51)
    case 52 => Code(12, 36, 52)
    case 53 => Code(12, 55, 53)
    case 54 => Code(12, 56, 54)
    case 55 => Code(12, 39, 55)
    case 56 => Code(12, 40, 56)
    case 57 => Code(12, 88, 57)
    case 58 => Code(12, 89, 58)
    case 59 => Code(12, 43, 59)
    case 60 => Code(12, 44, 60)
    case 61 => Code(12, 90, 61)
    case 62 => Code(12, 102, 62)
    case 63 => Code(12, 103, 63)
    case 64 => Code(10, 15, 64)
    case 65 => Code(12, 200, 128)
    case 66 => Code(12, 201, 192)
    case 67 => Code(12, 91, 256)
    case 68 => Code(12, 51, 320)
    case 69 => Code(12, 52, 384)
    case 70 => Code(12, 53, 448)
    case 71 => Code(13, 108, 512)
    case 72 => Code(13, 109, 576)
    case 73 => Code(13, 74, 640)
    case 74 => Code(13, 75, 704)
    case 75 => Code(13, 76, 768)
    case 76 => Code(13, 77, 832)
    case 77 => Code(13, 114, 896)
    case 78 => Code(13, 115, 960)
    case 79 => Code(13, 116, 1024)
    case 80 => Code(13, 117, 1088)
    case 81 => Code(13, 118, 1152)
    case 82 => Code(13, 119, 1216)
    case 83 => Code(13, 82, 1280)
    case 84 => Code(13, 83, 1344)
    case 85 => Code(13, 84, 1408)
    case 86 => Code(13, 85, 1472)
    case 87 => Code(13, 90, 1536)
    case 88 => Code(13, 91, 1600)
    case 89 => Code(13, 100, 1664)
    case 90 => Code(13, 101, 1728)
    case 91 => Code(11, 8, 1792)
    case 92 => Code(11, 12, 1856)
    case 93 => Code(11, 13, 1920)
    case 94 => Code(12, 18, 1984)
    case 95 => Code(12, 19, 2048)
    case 96 => Code(12, 20, 2112)
    case 97 => Code(12, 21, 2176)
    case 98 => Code(12, 22, 2240)
    case 99 => Code(12, 23, 2304)
    case 100 => Code(12, 28, 2368)
    case 101 => Code(12, 29, 2432)
    case 102 => Code(12, 30, 2496)
    case _ => Code(12, 31, 2560)
  }

  /** The first of the 13-bit windows that start with the codeword `code` of `len` bits. */
  function Low(len: nat, code: nat): (x: nat)
  {
    match len
    case 1 => 4096 * code
    case 2 => 2048 * code
    case 3 => 1024 * code
    case 4 => 512 * code
    case 5 => 256 * code
    case 6 => 128 * code
    case 7 => 64 * code
    case 8 => 32 * code
    case 9 => 16 * code
    case 10 => 8 * code
    case 11 => 4 * code
    case 12 => 2 * code
    case _ => code
  }

  predicate StartsWith(c: Code, x: nat) { Low(c.len, c.code) <= x < Low(c.len, c.code + 1) }

  // ----- the decision trees: which row of the table a 13-bit window can start with

  function WhiteOwner(x: nat): (i: nat)
  {
    if x < 2048 then
      if x < 672 then
        if x < 64 then
          if x < 46 then
            if x < 40 then
              if x < 36 then 91 else if x < 38 then 94 else 95
            else
              if x < 42 then 96 else if x < 44 then 97 else 98
          else
            if x < 56 then
              if x < 48 then 99 else if x < 52 then 92 else 93
            else
              if x < 60 then if x < 58 then 100 else 101 else if x < 62 then 102 else 103
        else
          if x < 320 then
            if x < 160 then
              if x < 96 then 29 else if x < 128 then 30 else 45
            else
              if x < 192 then 46 else if x < 256 then 22 else 23
          else
            if x < 512 then
              if x < 352 then 47 else if x < 384 then 48 else 13
            else
              if x < 608 then if x < 576 then 20 else 33 else if x < 640 then 34 else 35
      else
        if x < 1344 then
          if x < 896 then
            if x < 768 then
              if x < 704 then 36 else if x < 736 then 37 else 38
            else
              if x < 832 then 19 else if x < 864 then 31 else 32
          else
            if x < 1184 then
              if x < 1024 then 1 else if x < 1152 then 12 else 53
            else
              if x < 1280 then if x < 1216 then 54 else 26 else if x < 1312 then 39 else 40
        else
          if x < 1600 then
            if x < 1440 then
              if x < 1376 then 41 else if x < 1408 then 42 else 43
            else
              if x < 1472 then 44 else if x < 1536 then 21 else 28
          else
            if x < 1696 then
              if x < 1632 then 61 else if x < 1664 then 62 else 63
            else
              if x < 1760 then if x < 1728 then 0 else 68 else if x < 1792 then 69 else 10
    else
      if x < 3328 then
        if x < 2720 then
          if x < 2464 then
            if x < 2400 then
              if x < 2304 then 11 else if x < 2368 then 27 else 59
            else
              if x < 2432 then 60 else if x < 2448 then 86 else 87
          else
            if x < 2560 then
              if x < 2480 then 88 else if x < 2496 then 90 else 18
            else
              if x < 2656 then if x < 2624 then 24 else 49 else if x < 2688 then 50 else 51
        else
          if x < 2944 then
            if x < 2848 then
              if x < 2752 then 52 else if x < 2816 then 25 else 55
            else
              if x < 2880 then 56 else if x < 2912 then 57 else 58
          else
            if x < 3232 then
              if x < 3072 then 66 else if x < 3200 then 89 else 70
            else
              if x < 3280 then if x < 3264 then 71 else 74 else if x < 3296 then 75 else 73
      else
        if x < 4096 then
          if x < 3440 then
            if x < 3392 then
              if x < 3360 then 72 else if x < 3376 then 76 else 77
            else
              if x < 3408 then 78 else if x < 3424 then 79 else 80
          else
            if x < 3488 then
              if x < 3456 then 81 else if x < 3472 then 82 else 83
            else
              if x < 3520 then if x < 3504 then 84 else 85 else if x < 3584 then 67 else 2
        else
          if x < 5632 then
            if x < 5120 then
              if x < 4608 then 3 else if x < 4864 then 65 else 8
            else
              if x < 5376 then 9 else if x < 5504 then 16 else 17
          else
            if x < 6784 then
              if x < 6144 then 4 else if x < 6656 then 5 else 14
            else
              if x < 7168 then if x < 6912 then 15 else 64 else if x < 7680 then 6 else 7
  }

  function BlackOwner(x: nat): (i: nat)
  {
    if x < 170 then
      if x < 88 then
        if x < 64 then
          if x < 46 then
            if x < 40 then
              if x < 36 then 91 else if x < 38 then 94 else 95
            else
              if x < 42 then 96 else if x < 44 then 97 else 98
          else
            if x < 56 then
              if x < 48 then 99 else if x < 52 then 92 else 93
            else
              if x < 60 then if x < 58 then 100 else 101 else if x < 62 then 102 else 103
        else
          if x < 78 then
            if x < 75 then
              if x < 72 then 18 else if x < 74 then 52 else 73
            else
              if x < 76 then 74 else if x < 77 then 75 else 76
          else
            if x < 83 then
              if x < 80 then 55 else if x < 82 then 56 else 83
            else
              if x < 85 then if x < 84 then 84 else 85 else if x < 86 then 86 else 59
      else
        if x < 112 then
          if x < 101 then
            if x < 92 then
              if x < 90 then 60 else if x < 91 then 87 else 88
            else
              if x < 96 then 24 else if x < 100 then 25 else 89
          else
            if x < 106 then
              if x < 102 then 90 else if x < 104 then 68 else 69
            else
              if x < 109 then if x < 108 then 70 else 71 else if x < 110 then 72 else 53
        else
          if x < 119 then
            if x < 116 then
              if x < 114 then 54 else if x < 115 then 77 else 78
            else
              if x < 117 then 79 else if x < 118 then 80 else 81
          else
            if x < 160 then
              if x < 120 then 82 else if x < 128 then 64 else 13
            else
              if x < 166 then if x < 164 then 23 else 50 else if x < 168 then 51 else 44
    else
      if x < 404 then
        if x < 208 then
          if x < 182 then
            if x < 176 then
              if x < 172 then 45 else if x < 174 then 46 else 47
            else
              if x < 178 then 57 else if x < 180 then 58 else 61
          else
            if x < 200 then
              if x < 184 then 67 else if x < 192 then 16 else 17
            else
              if x < 204 then if x < 202 then 48 else 49 else if x < 206 then 62 else 63
        else
          if x < 220 then
            if x < 214 then
              if x < 210 then 30 else if x < 212 then 31 else 32
            else
              if x < 216 then 33 else if x < 218 then 40 else 41
          else
            if x < 320 then
              if x < 224 then 22 else if x < 256 then 14 else 10
            else
              if x < 400 then if x < 384 then 11 else 15 else if x < 402 then 65 else 66
      else
        if x < 436 then
          if x < 420 then
            if x < 410 then
              if x < 406 then 26 else if x < 408 then 27 else 28
            else
              if x < 412 then 29 else if x < 416 then 19 else 20
          else
            if x < 426 then
              if x < 422 then 34 else if x < 424 then 35 else 36
            else
              if x < 430 then if x < 428 then 37 else 38 else if x < 432 then 39 else 21
        else
          if x < 768 then
            if x < 448 then
              if x < 438 then 42 else if x < 440 then 43 else 0
            else
              if x < 512 then 12 else if x < 640 then 9 else 8
          else
            if x < 2048 then
              if x < 1024 then 7 else if x < 1536 then 6 else 5
            else
              if x < 4096 then if x < 3072 then 1 else 4 else if x < 6144 then 3 else 2
  }

  /**
   What the tables promise about row `i`: the rows are in order of run length; the codeword has 1 to 13 bits; its
   windows are 13-bit numbers above those of the end-of-line code; and a window that starts with it is owned by row
   `i` alone.
   */
  predicate RowOk(i: nat, c: Code, x: nat, owner: nat)
  {
    && c.run == (if i < 64 then i else 64 * (i - 63))
    && 1 <= c.len <= 13
    && 32 <= Low(c.len, c.code) < 8192
    && (StartsWith(c, x) ==> owner == i)
  }

  lemma WhiteRows0(i: nat, x: nat)
    requires 0 <= i < 20
    ensures RowOk(i, White(i), x, WhiteOwner(x))
  {
  }

  lemma WhiteRows20(i: nat, x: nat)
    requires 20 <= i < 40
    ensures RowOk(i, White(i), x, WhiteOwner(x))
  {
  }

  lemma WhiteRows40(i: nat, x: nat)
    requires 40 <= i < 60
    ensures RowOk(i, White(i), x, WhiteOwner(x))
  {
  }

  lemma WhiteRows60(i: nat, x: nat)
    requires 60 <= i < 76
    ensures RowOk(i, White(i), x, WhiteOwner(x))
  {
  }

  lemma WhiteRows76(i: nat, x: nat)
    requires 76 <= i < 90
    ensures RowOk(i, White(i), x, WhiteOwner(x))
  {
  }

  lemma WhiteRows90(i: nat, x: nat)
    requires 90 <= i < 104
    ensures RowOk(i, White(i), x, WhiteOwner(x))
  {
  }

  lemma BlackRows0(i: nat, x: nat)
    requires 0 <= i < 20
    ensures RowOk(i, Black(i), x, BlackOwner(x))
  {
  }

  lemma BlackRows20(i: nat, x: nat)
    requires 20 <= i < 40
    ensures RowOk(i, Black(i), x, BlackOwner(x))
  {
  }

  lemma BlackRows40(i: nat, x: nat)
    requires 40 <= i < 60
    ensures RowOk(i, Black(i), x, BlackOwner(x))
  {
  }

  lemma BlackRows60(i: nat, x: nat)
    requires 60 <= i < 76
    ensures RowOk(i, Black(i), x, BlackOwner(x))
  {
  }

  lemma BlackRows76(i: nat, x: nat)
    requires 76 <= i < 90
    ensures RowOk(i, Black(i), x, BlackOwner(x))
  {
  }

  lemma BlackRows90(i: nat, x: nat)
    requires 90 <= i < 104
    ensures RowOk(i, Black(i), x, BlackOwner(x))
  {
  }

  function Owner(white: bool, x: nat): (i: nat) { if white then WhiteOwner(x) else BlackOwner(x) }

  lemma TableOk(white: bool, i: nat, x: nat)
    requires i < CODES
    ensures RowOk(i, Row(white, i), x, Owner(white, x))
  {
    if white {
      if i < 20 {
        WhiteRows0(i, x);
      } else if i < 40 {
        WhiteRows20(i, x);
      } else if i < 60 {
        WhiteRows40(i, x);
      } else if i < 76 {
        WhiteRows60(i, x);
      } else if i < 90 {
        WhiteRows76(i, x);
      } else {
        WhiteRows90(i, x);
      }
    } else {
      if i < 20 {
        BlackRows0(i, x);
      } else if i < 40 {
        BlackRows20(i, x);
      } else if i < 60 {
        BlackRows40(i, x);
      } else if i < 76 {
        BlackRows60(i, x);
      } else if i < 90 {
        BlackRows76(i, x);
      } else {
        BlackRows90(i, x);
      }
    }
  }
}
