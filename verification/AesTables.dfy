/** The constant tables of the software AES: one row of sixteen entries per high nibble. */
module AesTables {
  /** SubBytes followed by the first MixColumns column. */
  function Te0(x: bv8): bv32 {
    match x >> 4
    case 0 => (match x & 0xf
      case 0 => 0xc66363a5 case 1 => 0xf87c7c84 case 2 => 0xee777799 case 3 => 0xf67b7b8d case 4 => 0xfff2f20d case 5 => 0xd66b6bbd case 6 => 0xde6f6fb1 case 7 => 0x91c5c554
      case 8 => 0x60303050 case 9 => 0x02010103 case 10 => 0xce6767a9 case 11 => 0x562b2b7d case 12 => 0xe7fefe19 case 13 => 0xb5d7d762 case 14 => 0x4dababe6 case 15 => 0xec76769a)
    case 1 => (match x & 0xf
      case 0 => 0x8fcaca45 case 1 => 0x1f82829d case 2 => 0x89c9c940 case 3 => 0xfa7d7d87 case 4 => 0xeffafa15 case 5 => 0xb25959eb case 6 => 0x8e4747c9 case 7 => 0xfbf0f00b
      case 8 => 0x41adadec case 9 => 0xb3d4d467 case 10 => 0x5fa2a2fd case 11 => 0x45afafea case 12 => 0x239c9cbf case 13 => 0x53a4a4f7 case 14 => 0xe4727296 case 15 => 0x9bc0c05b)
    case 2 => (match x & 0xf
      case 0 => 0x75b7b7c2 case 1 => 0xe1fdfd1c case 2 => 0x3d9393ae case 3 => 0x4c26266a case 4 => 0x6c36365a case 5 => 0x7e3f3f41 case 6 => 0xf5f7f702 case 7 => 0x83cccc4f
      case 8 => 0x6834345c case 9 => 0x51a5a5f4 case 10 => 0xd1e5e534 case 11 => 0xf9f1f108 case 12 => 0xe2717193 case 13 => 0xabd8d873 case 14 => 0x62313153 case 15 => 0x2a15153f)
    case 3 => (match x & 0xf
      case 0 => 0x0804040c case 1 => 0x95c7c752 case 2 => 0x46232365 case 3 => 0x9dc3c35e case 4 => 0x30181828 case 5 => 0x379696a1 case 6 => 0x0a05050f case 7 => 0x2f9a9ab5
      case 8 => 0x0e070709 case 9 => 0x24121236 case 10 => 0x1b80809b case 11 => 0xdfe2e23d case 12 => 0xcdebeb26 case 13 => 0x4e272769 case 14 => 0x7fb2b2cd case 15 => 0xea75759f)
    case 4 => (match x & 0xf
      case 0 => 0x1209091b case 1 => 0x1d83839e case 2 => 0x582c2c74 case 3 => 0x341a1a2e case 4 => 0x361b1b2d case 5 => 0xdc6e6eb2 case 6 => 0xb45a5aee case 7 => 0x5ba0a0fb
      case 8 => 0xa45252f6 case 9 => 0x763b3b4d case 10 => 0xb7d6d661 case 11 => 0x7db3b3ce case 12 => 0x5229297b case 13 => 0xdde3e33e case 14 => 0x5e2f2f71 case 15 => 0x13848497)
    case 5 => (match x & 0xf
      case 0 => 0xa65353f5 case 1 => 0xb9d1d168 case 2 => 0x00000000 case 3 => 0xc1eded2c case 4 => 0x40202060 case 5 => 0xe3fcfc1f case 6 => 0x79b1b1c8 case 7 => 0xb65b5bed
      case 8 => 0xd46a6abe case 9 => 0x8dcbcb46 case 10 => 0x67bebed9 case 11 => 0x7239394b case 12 => 0x944a4ade case 13 => 0x984c4cd4 case 14 => 0xb05858e8 case 15 => 0x85cfcf4a)
    case 6 => (match x & 0xf
      case 0 => 0xbbd0d06b case 1 => 0xc5efef2a case 2 => 0x4faaaae5 case 3 => 0xedfbfb16 case 4 => 0x864343c5 case 5 => 0x9a4d4dd7 case 6 => 0x66333355 case 7 => 0x11858594
      case 8 => 0x8a4545cf case 9 => 0xe9f9f910 case 10 => 0x04020206 case 11 => 0xfe7f7f81 case 12 => 0xa05050f0 case 13 => 0x783c3c44 case 14 => 0x259f9fba case 15 => 0x4ba8a8e3)
    case 7 => (match x & 0xf
      case 0 => 0xa25151f3 case 1 => 0x5da3a3fe case 2 => 0x804040c0 case 3 => 0x058f8f8a case 4 => 0x3f9292ad case 5 => 0x219d9dbc case 6 => 0x70383848 case 7 => 0xf1f5f504
      case 8 => 0x63bcbcdf case 9 => 0x77b6b6c1 case 10 => 0xafdada75 case 11 => 0x42212163 case 12 => 0x20101030 case 13 => 0xe5ffff1a case 14 => 0xfdf3f30e case 15 => 0xbfd2d26d)
    case 8 => (match x & 0xf
      case 0 => 0x81cdcd4c case 1 => 0x180c0c14 case 2 => 0x26131335 case 3 => 0xc3ecec2f case 4 => 0xbe5f5fe1 case 5 => 0x359797a2 case 6 => 0x884444cc case 7 => 0x2e171739
      case 8 => 0x93c4c457 case 9 => 0x55a7a7f2 case 10 => 0xfc7e7e82 case 11 => 0x7a3d3d47 case 12 => 0xc86464ac case 13 => 0xba5d5de7 case 14 => 0x3219192b case 15 => 0xe6737395)
    case 9 => (match x & 0xf
      case 0 => 0xc06060a0 case 1 => 0x19818198 case 2 => 0x9e4f4fd1 case 3 => 0xa3dcdc7f case 4 => 0x44222266 case 5 => 0x542a2a7e case 6 => 0x3b9090ab case 7 => 0x0b888883
      case 8 => 0x8c4646ca case 9 => 0xc7eeee29 case 10 => 0x6bb8b8d3 case 11 => 0x2814143c case 12 => 0xa7dede79 case 13 => 0xbc5e5ee2 case 14 => 0x160b0b1d case 15 => 0xaddbdb76)
    case 10 => (match x & 0xf
      case 0 => 0xdbe0e03b case 1 => 0x64323256 case 2 => 0x743a3a4e case 3 => 0x140a0a1e case 4 => 0x924949db case 5 => 0x0c06060a case 6 => 0x4824246c case 7 => 0xb85c5ce4
      case 8 => 0x9fc2c25d case 9 => 0xbdd3d36e case 10 => 0x43acacef case 11 => 0xc46262a6 case 12 => 0x399191a8 case 13 => 0x319595a4 case 14 => 0xd3e4e437 case 15 => 0xf279798b)
    case 11 => (match x & 0xf
      case 0 => 0xd5e7e732 case 1 => 0x8bc8c843 case 2 => 0x6e373759 case 3 => 0xda6d6db7 case 4 => 0x018d8d8c case 5 => 0xb1d5d564 case 6 => 0x9c4e4ed2 case 7 => 0x49a9a9e0
      case 8 => 0xd86c6cb4 case 9 => 0xac5656fa case 10 => 0xf3f4f407 case 11 => 0xcfeaea25 case 12 => 0xca6565af case 13 => 0xf47a7a8e case 14 => 0x47aeaee9 case 15 => 0x10080818)
    case 12 => (match x & 0xf
      case 0 => 0x6fbabad5 case 1 => 0xf0787888 case 2 => 0x4a25256f case 3 => 0x5c2e2e72 case 4 => 0x381c1c24 case 5 => 0x57a6a6f1 case 6 => 0x73b4b4c7 case 7 => 0x97c6c651
      case 8 => 0xcbe8e823 case 9 => 0xa1dddd7c case 10 => 0xe874749c case 11 => 0x3e1f1f21 case 12 => 0x964b4bdd case 13 => 0x61bdbddc case 14 => 0x0d8b8b86 case 15 => 0x0f8a8a85)
    case 13 => (match x & 0xf
      case 0 => 0xe0707090 case 1 => 0x7c3e3e42 case 2 => 0x71b5b5c4 case 3 => 0xcc6666aa case 4 => 0x904848d8 case 5 => 0x06030305 case 6 => 0xf7f6f601 case 7 => 0x1c0e0e12
      case 8 => 0xc26161a3 case 9 => 0x6a35355f case 10 => 0xae5757f9 case 11 => 0x69b9b9d0 case 12 => 0x17868691 case 13 => 0x99c1c158 case 14 => 0x3a1d1d27 case 15 => 0x279e9eb9)
    case 14 => (match x & 0xf
      case 0 => 0xd9e1e138 case 1 => 0xebf8f813 case 2 => 0x2b9898b3 case 3 => 0x22111133 case 4 => 0xd26969bb case 5 => 0xa9d9d970 case 6 => 0x078e8e89 case 7 => 0x339494a7
      case 8 => 0x2d9b9bb6 case 9 => 0x3c1e1e22 case 10 => 0x15878792 case 11 => 0xc9e9e920 case 12 => 0x87cece49 case 13 => 0xaa5555ff case 14 => 0x50282878 case 15 => 0xa5dfdf7a)
    case 15 => (match x & 0xf
      case 0 => 0x038c8c8f case 1 => 0x59a1a1f8 case 2 => 0x09898980 case 3 => 0x1a0d0d17 case 4 => 0x65bfbfda case 5 => 0xd7e6e631 case 6 => 0x844242c6 case 7 => 0xd06868b8
      case 8 => 0x824141c3 case 9 => 0x299999b0 case 10 => 0x5a2d2d77 case 11 => 0x1e0f0f11 case 12 => 0x7bb0b0cb case 13 => 0xa85454fc case 14 => 0x6dbbbbd6 case 15 => 0x2c16163a)
  }

  /** The S-box, repeated in all four bytes. */
  function Te4(x: bv8): bv32 {
    match x >> 4
    case 0 => (match x & 0xf
      case 0 => 0x63636363 case 1 => 0x7c7c7c7c case 2 => 0x77777777 case 3 => 0x7b7b7b7b case 4 => 0xf2f2f2f2 case 5 => 0x6b6b6b6b case 6 => 0x6f6f6f6f case 7 => 0xc5c5c5c5
      case 8 => 0x30303030 case 9 => 0x01010101 case 10 => 0x67676767 case 11 => 0x2b2b2b2b case 12 => 0xfefefefe case 13 => 0xd7d7d7d7 case 14 => 0xabababab case 15 => 0x76767676)
    case 1 => (match x & 0xf
      case 0 => 0xcacacaca case 1 => 0x82828282 case 2 => 0xc9c9c9c9 case 3 => 0x7d7d7d7d case 4 => 0xfafafafa case 5 => 0x59595959 case 6 => 0x47474747 case 7 => 0xf0f0f0f0
      case 8 => 0xadadadad case 9 => 0xd4d4d4d4 case 10 => 0xa2a2a2a2 case 11 => 0xafafafaf case 12 => 0x9c9c9c9c case 13 => 0xa4a4a4a4 case 14 => 0x72727272 case 15 => 0xc0c0c0c0)
    case 2 => (match x & 0xf
      case 0 => 0xb7b7b7b7 case 1 => 0xfdfdfdfd case 2 => 0x93939393 case 3 => 0x26262626 case 4 => 0x36363636 case 5 => 0x3f3f3f3f case 6 => 0xf7f7f7f7 case 7 => 0xcccccccc
      case 8 => 0x34343434 case 9 => 0xa5a5a5a5 case 10 => 0xe5e5e5e5 case 11 => 0xf1f1f1f1 case 12 => 0x71717171 case 13 => 0xd8d8d8d8 case 14 => 0x31313131 case 15 => 0x15151515)
    case 3 => (match x & 0xf
      case 0 => 0x04040404 case 1 => 0xc7c7c7c7 case 2 => 0x23232323 case 3 => 0xc3c3c3c3 case 4 => 0x18181818 case 5 => 0x96969696 case 6 => 0x05050505 case 7 => 0x9a9a9a9a
      case 8 => 0x07070707 case 9 => 0x12121212 case 10 => 0x80808080 case 11 => 0xe2e2e2e2 case 12 => 0xebebebeb case 13 => 0x27272727 case 14 => 0xb2b2b2b2 case 15 => 0x75757575)
    case 4 => (match x & 0xf
      case 0 => 0x09090909 case 1 => 0x83838383 case 2 => 0x2c2c2c2c case 3 => 0x1a1a1a1a case 4 => 0x1b1b1b1b case 5 => 0x6e6e6e6e case 6 => 0x5a5a5a5a case 7 => 0xa0a0a0a0
      case 8 => 0x52525252 case 9 => 0x3b3b3b3b case 10 => 0xd6d6d6d6 case 11 => 0xb3b3b3b3 case 12 => 0x29292929 case 13 => 0xe3e3e3e3 case 14 => 0x2f2f2f2f case 15 => 0x84848484)
    case 5 => (match x & 0xf
      case 0 => 0x53535353 case 1 => 0xd1d1d1d1 case 2 => 0x00000000 case 3 => 0xedededed case 4 => 0x20202020 case 5 => 0xfcfcfcfc case 6 => 0xb1b1b1b1 case 7 => 0x5b5b5b5b
      case 8 => 0x6a6a6a6a case 9 => 0xcbcbcbcb case 10 => 0xbebebebe case 11 => 0x39393939 case 12 => 0x4a4a4a4a case 13 => 0x4c4c4c4c case 14 => 0x58585858 case 15 => 0xcfcfcfcf)
    case 6 => (match x & 0xf
      case 0 => 0xd0d0d0d0 case 1 => 0xefefefef case 2 => 0xaaaaaaaa case 3 => 0xfbfbfbfb case 4 => 0x43434343 case 5 => 0x4d4d4d4d case 6 => 0x33333333 case 7 => 0x85858585
      case 8 => 0x45454545 case 9 => 0xf9f9f9f9 case 10 => 0x02020202 case 11 => 0x7f7f7f7f case 12 => 0x50505050 case 13 => 0x3c3c3c3c case 14 => 0x9f9f9f9f case 15 => 0xa8a8a8a8)
    case 7 => (match x & 0xf
      case 0 => 0x51515151 case 1 => 0xa3a3a3a3 case 2 => 0x40404040 case 3 => 0x8f8f8f8f case 4 => 0x92929292 case 5 => 0x9d9d9d9d case 6 => 0x38383838 case 7 => 0xf5f5f5f5
      case 8 => 0xbcbcbcbc case 9 => 0xb6b6b6b6 case 10 => 0xdadadada case 11 => 0x21212121 case 12 => 0x10101010 case 13 => 0xffffffff case 14 => 0xf3f3f3f3 case 15 => 0xd2d2d2d2)
    case 8 => (match x & 0xf
      case 0 => 0xcdcdcdcd case 1 => 0x0c0c0c0c case 2 => 0x13131313 case 3 => 0xecececec case 4 => 0x5f5f5f5f case 5 => 0x97979797 case 6 => 0x44444444 case 7 => 0x17171717
      case 8 => 0xc4c4c4c4 case 9 => 0xa7a7a7a7 case 10 => 0x7e7e7e7e case 11 => 0x3d3d3d3d case 12 => 0x64646464 case 13 => 0x5d5d5d5d case 14 => 0x19191919 case 15 => 0x73737373)
    case 9 => (match x & 0xf
      case 0 => 0x60606060 case 1 => 0x81818181 case 2 => 0x4f4f4f4f case 3 => 0xdcdcdcdc case 4 => 0x22222222 case 5 => 0x2a2a2a2a case 6 => 0x90909090 case 7 => 0x88888888
      case 8 => 0x46464646 case 9 => 0xeeeeeeee case 10 => 0xb8b8b8b8 case 11 => 0x14141414 case 12 => 0xdededede case 13 => 0x5e5e5e5e case 14 => 0x0b0b0b0b case 15 => 0xdbdbdbdb)
    case 10 => (match x & 0xf
      case 0 => 0xe0e0e0e0 case 1 => 0x32323232 case 2 => 0x3a3a3a3a case 3 => 0x0a0a0a0a case 4 => 0x49494949 case 5 => 0x06060606 case 6 => 0x24242424 case 7 => 0x5c5c5c5c
      case 8 => 0xc2c2c2c2 case 9 => 0xd3d3d3d3 case 10 => 0xacacacac case 11 => 0x62626262 case 12 => 0x91919191 case 13 => 0x95959595 case 14 => 0xe4e4e4e4 case 15 => 0x79797979)
    case 11 => (match x & 0xf
      case 0 => 0xe7e7e7e7 case 1 => 0xc8c8c8c8 case 2 => 0x37373737 case 3 => 0x6d6d6d6d case 4 => 0x8d8d8d8d case 5 => 0xd5d5d5d5 case 6 => 0x4e4e4e4e case 7 => 0xa9a9a9a9
      case 8 => 0x6c6c6c6c case 9 => 0x56565656 case 10 => 0xf4f4f4f4 case 11 => 0xeaeaeaea case 12 => 0x65656565 case 13 => 0x7a7a7a7a case 14 => 0xaeaeaeae case 15 => 0x08080808)
    case 12 => (match x & 0xf
      case 0 => 0xbabababa case 1 => 0x78787878 case 2 => 0x25252525 case 3 => 0x2e2e2e2e case 4 => 0x1c1c1c1c case 5 => 0xa6a6a6a6 case 6 => 0xb4b4b4b4 case 7 => 0xc6c6c6c6
      case 8 => 0xe8e8e8e8 case 9 => 0xdddddddd case 10 => 0x74747474 case 11 => 0x1f1f1f1f case 12 => 0x4b4b4b4b case 13 => 0xbdbdbdbd case 14 => 0x8b8b8b8b case 15 => 0x8a8a8a8a)
    case 13 => (match x & 0xf
      case 0 => 0x70707070 case 1 => 0x3e3e3e3e case 2 => 0xb5b5b5b5 case 3 => 0x66666666 case 4 => 0x48484848 case 5 => 0x03030303 case 6 => 0xf6f6f6f6 case 7 => 0x0e0e0e0e
      case 8 => 0x61616161 case 9 => 0x35353535 case 10 => 0x57575757 case 11 => 0xb9b9b9b9 case 12 => 0x86868686 case 13 => 0xc1c1c1c1 case 14 => 0x1d1d1d1d case 15 => 0x9e9e9e9e)
    case 14 => (match x & 0xf
      case 0 => 0xe1e1e1e1 case 1 => 0xf8f8f8f8 case 2 => 0x98989898 case 3 => 0x11111111 case 4 => 0x69696969 case 5 => 0xd9d9d9d9 case 6 => 0x8e8e8e8e case 7 => 0x94949494
      case 8 => 0x9b9b9b9b case 9 => 0x1e1e1e1e case 10 => 0x87878787 case 11 => 0xe9e9e9e9 case 12 => 0xcececece case 13 => 0x55555555 case 14 => 0x28282828 case 15 => 0xdfdfdfdf)
    case 15 => (match x & 0xf
      case 0 => 0x8c8c8c8c case 1 => 0xa1a1a1a1 case 2 => 0x89898989 case 3 => 0x0d0d0d0d case 4 => 0xbfbfbfbf case 5 => 0xe6e6e6e6 case 6 => 0x42424242 case 7 => 0x68686868
      case 8 => 0x41414141 case 9 => 0x99999999 case 10 => 0x2d2d2d2d case 11 => 0x0f0f0f0f case 12 => 0xb0b0b0b0 case 13 => 0x54545454 case 14 => 0xbbbbbbbb case 15 => 0x16161616)
  }

  /** InvSubBytes followed by the first InvMixColumns column. */
  function Td0(x: bv8): bv32 {
    match x >> 4
    case 0 => (match x & 0xf
      case 0 => 0x51f4a750 case 1 => 0x7e416553 case 2 => 0x1a17a4c3 case 3 => 0x3a275e96 case 4 => 0x3bab6bcb case 5 => 0x1f9d45f1 case 6 => 0xacfa58ab case 7 => 0x4be30393
      case 8 => 0x2030fa55 case 9 => 0xad766df6 case 10 => 0x88cc7691 case 11 => 0xf5024c25 case 12 => 0x4fe5d7fc case 13 => 0xc52acbd7 case 14 => 0x26354480 case 15 => 0xb562a38f)
    case 1 => (match x & 0xf
      case 0 => 0xdeb15a49 case 1 => 0x25ba1b67 case 2 => 0x45ea0e98 case 3 => 0x5dfec0e1 case 4 => 0xc32f7502 case 5 => 0x814cf012 case 6 => 0x8d4697a3 case 7 => 0x6bd3f9c6
      case 8 => 0x038f5fe7 case 9 => 0x15929c95 case 10 => 0xbf6d7aeb case 11 => 0x955259da case 12 => 0xd4be832d case 13 => 0x587421d3 case 14 => 0x49e06929 case 15 => 0x8ec9c844)
    case 2 => (match x & 0xf
      case 0 => 0x75c2896a case 1 => 0xf48e7978 case 2 => 0x99583e6b case 3 => 0x27b971dd case 4 => 0xbee14fb6 case 5 => 0xf088ad17 case 6 => 0xc920ac66 case 7 => 0x7dce3ab4
      case 8 => 0x63df4a18 case 9 => 0xe51a3182 case 10 => 0x97513360 case 11 => 0x62537f45 case 12 => 0xb16477e0 case 13 => 0xbb6bae84 case 14 => 0xfe81a01c case 15 => 0xf9082b94)
    case 3 => (match x & 0xf
      case 0 => 0x70486858 case 1 => 0x8f45fd19 case 2 => 0x94de6c87 case 3 => 0x527bf8b7 case 4 => 0xab73d323 case 5 => 0x724b02e2 case 6 => 0xe31f8f57 case 7 => 0x6655ab2a
      case 8 => 0xb2eb2807 case 9 => 0x2fb5c203 case 10 => 0x86c57b9a case 11 => 0xd33708a5 case 12 => 0x302887f2 case 13 => 0x23bfa5b2 case 14 => 0x02036aba case 15 => 0xed16825c)
    case 4 => (match x & 0xf
      case 0 => 0x8acf1c2b case 1 => 0xa779b492 case 2 => 0xf307f2f0 case 3 => 0x4e69e2a1 case 4 => 0x65daf4cd case 5 => 0x0605bed5 case 6 => 0xd134621f case 7 => 0xc4a6fe8a
      case 8 => 0x342e539d case 9 => 0xa2f355a0 case 10 => 0x058ae132 case 11 => 0xa4f6eb75 case 12 => 0x0b83ec39 case 13 => 0x4060efaa case 14 => 0x5e719f06 case 15 => 0xbd6e1051)
    case 5 => (match x & 0xf
      case 0 => 0x3e218af9 case 1 => 0x96dd063d case 2 => 0xdd3e05ae case 3 => 0x4de6bd46 case 4 => 0x91548db5 case 5 => 0x71c45d05 case 6 => 0x0406d46f case 7 => 0x605015ff
      case 8 => 0x1998fb24 case 9 => 0xd6bde997 case 10 => 0x894043cc case 11 => 0x67d99e77 case 12 => 0xb0e842bd case 13 => 0x07898b88 case 14 => 0xe7195b38 case 15 => 0x79c8eedb)
    case 6 => (match x & 0xf
      case 0 => 0xa17c0a47 case 1 => 0x7c420fe9 case 2 => 0xf8841ec9 case 3 => 0x00000000 case 4 => 0x09808683 case 5 => 0x322bed48 case 6 => 0x1e1170ac case 7 => 0x6c5a724e
      case 8 => 0xfd0efffb case 9 => 0x0f853856 case 10 => 0x3daed51e case 11 => 0x362d3927 case 12 => 0x0a0fd964 case 13 => 0x685ca621 case 14 => 0x9b5b54d1 case 15 => 0x24362e3a)
    case 7 => (match x & 0xf
      case 0 => 0x0c0a67b1 case 1 => 0x9357e70f case 2 => 0xb4ee96d2 case 3 => 0x1b9b919e case 4 => 0x80c0c54f case 5 => 0x61dc20a2 case 6 => 0x5a774b69 case 7 => 0x1c121a16
      case 8 => 0xe293ba0a case 9 => 0xc0a02ae5 case 10 => 0x3c22e043 case 11 => 0x121b171d case 12 => 0x0e090d0b case 13 => 0xf28bc7ad case 14 => 0x2db6a8b9 case 15 => 0x141ea9c8)
    case 8 => (match x & 0xf
      case 0 => 0x57f11985 case 1 => 0xaf75074c case 2 => 0xee99ddbb case 3 => 0xa37f60fd case 4 => 0xf701269f case 5 => 0x5c72f5bc case 6 => 0x44663bc5 case 7 => 0x5bfb7e34
      case 8 => 0x8b432976 case 9 => 0xcb23c6dc case 10 => 0xb6edfc68 case 11 => 0xb8e4f163 case 12 => 0xd731dcca case 13 => 0x42638510 case 14 => 0x13972240 case 15 => 0x84c61120)
    case 9 => (match x & 0xf
      case 0 => 0x854a247d case 1 => 0xd2bb3df8 case 2 => 0xaef93211 case 3 => 0xc729a16d case 4 => 0x1d9e2f4b case 5 => 0xdcb230f3 case 6 => 0x0d8652ec case 7 => 0x77c1e3d0
      case 8 => 0x2bb3166c case 9 => 0xa970b999 case 10 => 0x119448fa case 11 => 0x47e96422 case 12 => 0xa8fc8cc4 case 13 => 0xa0f03f1a case 14 => 0x567d2cd8 case 15 => 0x223390ef)
    case 10 => (match x & 0xf
      case 0 => 0x87494ec7 case 1 => 0xd938d1c1 case 2 => 0x8ccaa2fe case 3 => 0x98d40b36 case 4 => 0xa6f581cf case 5 => 0xa57ade28 case 6 => 0xdab78e26 case 7 => 0x3fadbfa4
      case 8 => 0x2c3a9de4 case 9 => 0x5078920d case 10 => 0x6a5fcc9b case 11 => 0x547e4662 case 12 => 0xf68d13c2 case 13 => 0x90d8b8e8 case 14 => 0x2e39f75e case 15 => 0x82c3aff5)
    case 11 => (match x & 0xf
      case 0 => 0x9f5d80be case 1 => 0x69d0937c case 2 => 0x6fd52da9 case 3 => 0xcf2512b3 case 4 => 0xc8ac993b case 5 => 0x10187da7 case 6 => 0xe89c636e case 7 => 0xdb3bbb7b
      case 8 => 0xcd267809 case 9 => 0x6e5918f4 case 10 => 0xec9ab701 case 11 => 0x834f9aa8 case 12 => 0xe6956e65 case 13 => 0xaaffe67e case 14 => 0x21bccf08 case 15 => 0xef15e8e6)
    case 12 => (match x & 0xf
      case 0 => 0xbae79bd9 case 1 => 0x4a6f36ce case 2 => 0xea9f09d4 case 3 => 0x29b07cd6 case 4 => 0x31a4b2af case 5 => 0x2a3f2331 case 6 => 0xc6a59430 case 7 => 0x35a266c0
      case 8 => 0x744ebc37 case 9 => 0xfc82caa6 case 10 => 0xe090d0b0 case 11 => 0x33a7d815 case 12 => 0xf104984a case 13 => 0x41ecdaf7 case 14 => 0x7fcd500e case 15 => 0x1791f62f)
    case 13 => (match x & 0xf
      case 0 => 0x764dd68d case 1 => 0x43efb04d case 2 => 0xccaa4d54 case 3 => 0xe49604df case 4 => 0x9ed1b5e3 case 5 => 0x4c6a881b case 6 => 0xc12c1fb8 case 7 => 0x4665517f
      case 8 => 0x9d5eea04 case 9 => 0x018c355d case 10 => 0xfa877473 case 11 => 0xfb0b412e case 12 => 0xb3671d5a case 13 => 0x92dbd252 case 14 => 0xe9105633 case 15 => 0x6dd64713)
    case 14 => (match x & 0xf
      case 0 => 0x9ad7618c case 1 => 0x37a10c7a case 2 => 0x59f8148e case 3 => 0xeb133c89 case 4 => 0xcea927ee case 5 => 0xb761c935 case 6 => 0xe11ce5ed case 7 => 0x7a47b13c
      case 8 => 0x9cd2df59 case 9 => 0x55f2733f case 10 => 0x1814ce79 case 11 => 0x73c737bf case 12 => 0x53f7cdea case 13 => 0x5ffdaa5b case 14 => 0xdf3d6f14 case 15 => 0x7844db86)
    case 15 => (match x & 0xf
      case 0 => 0xcaaff381 case 1 => 0xb968c43e case 2 => 0x3824342c case 3 => 0xc2a3405f case 4 => 0x161dc372 case 5 => 0xbce2250c case 6 => 0x283c498b case 7 => 0xff0d9541
      case 8 => 0x39a80171 case 9 => 0x080cb3de case 10 => 0xd8b4e49c case 11 => 0x6456c190 case 12 => 0x7bcb8461 case 13 => 0xd532b670 case 14 => 0x486c5c74 case 15 => 0xd0b85742)
  }

  /** The inverse S-box. */
  function Td4(x: bv8): bv8 {
    match x >> 4
    case 0 => (match x & 0xf
      case 0 => 0x52 case 1 => 0x09 case 2 => 0x6a case 3 => 0xd5 case 4 => 0x30 case 5 => 0x36 case 6 => 0xa5 case 7 => 0x38 case 8 => 0xbf case 9 => 0x40 case 10 => 0xa3 case 11 => 0x9e case 12 => 0x81 case 13 => 0xf3 case 14 => 0xd7 case 15 => 0xfb)
    case 1 => (match x & 0xf
      case 0 => 0x7c case 1 => 0xe3 case 2 => 0x39 case 3 => 0x82 case 4 => 0x9b case 5 => 0x2f case 6 => 0xff case 7 => 0x87 case 8 => 0x34 case 9 => 0x8e case 10 => 0x43 case 11 => 0x44 case 12 => 0xc4 case 13 => 0xde case 14 => 0xe9 case 15 => 0xcb)
    case 2 => (match x & 0xf
      case 0 => 0x54 case 1 => 0x7b case 2 => 0x94 case 3 => 0x32 case 4 => 0xa6 case 5 => 0xc2 case 6 => 0x23 case 7 => 0x3d case 8 => 0xee case 9 => 0x4c case 10 => 0x95 case 11 => 0x0b case 12 => 0x42 case 13 => 0xfa case 14 => 0xc3 case 15 => 0x4e)
    case 3 => (match x & 0xf
      case 0 => 0x08 case 1 => 0x2e case 2 => 0xa1 case 3 => 0x66 case 4 => 0x28 case 5 => 0xd9 case 6 => 0x24 case 7 => 0xb2 case 8 => 0x76 case 9 => 0x5b case 10 => 0xa2 case 11 => 0x49 case 12 => 0x6d case 13 => 0x8b case 14 => 0xd1 case 15 => 0x25)
    case 4 => (match x & 0xf
      case 0 => 0x72 case 1 => 0xf8 case 2 => 0xf6 case 3 => 0x64 case 4 => 0x86 case 5 => 0x68 case 6 => 0x98 case 7 => 0x16 case 8 => 0xd4 case 9 => 0xa4 case 10 => 0x5c case 11 => 0xcc case 12 => 0x5d case 13 => 0x65 case 14 => 0xb6 case 15 => 0x92)
    case 5 => (match x & 0xf
      case 0 => 0x6c case 1 => 0x70 case 2 => 0x48 case 3 => 0x50 case 4 => 0xfd case 5 => 0xed case 6 => 0xb9 case 7 => 0xda case 8 => 0x5e case 9 => 0x15 case 10 => 0x46 case 11 => 0x57 case 12 => 0xa7 case 13 => 0x8d case 14 => 0x9d case 15 => 0x84)
    case 6 => (match x & 0xf
      case 0 => 0x90 case 1 => 0xd8 case 2 => 0xab case 3 => 0x00 case 4 => 0x8c case 5 => 0xbc case 6 => 0xd3 case 7 => 0x0a case 8 => 0xf7 case 9 => 0xe4 case 10 => 0x58 case 11 => 0x05 case 12 => 0xb8 case 13 => 0xb3 case 14 => 0x45 case 15 => 0x06)
    case 7 => (match x & 0xf
      case 0 => 0xd0 case 1 => 0x2c case 2 => 0x1e case 3 => 0x8f case 4 => 0xca case 5 => 0x3f case 6 => 0x0f case 7 => 0x02 case 8 => 0xc1 case 9 => 0xaf case 10 => 0xbd case 11 => 0x03 case 12 => 0x01 case 13 => 0x13 case 14 => 0x8a case 15 => 0x6b)
    case 8 => (match x & 0xf
      case 0 => 0x3a case 1 => 0x91 case 2 => 0x11 case 3 => 0x41 case 4 => 0x4f case 5 => 0x67 case 6 => 0xdc case 7 => 0xea case 8 => 0x97 case 9 => 0xf2 case 10 => 0xcf case 11 => 0xce case 12 => 0xf0 case 13 => 0xb4 case 14 => 0xe6 case 15 => 0x73)
    case 9 => (match x & 0xf
      case 0 => 0x96 case 1 => 0xac case 2 => 0x74 case 3 => 0x22 case 4 => 0xe7 case 5 => 0xad case 6 => 0x35 case 7 => 0x85 case 8 => 0xe2 case 9 => 0xf9 case 10 => 0x37 case 11 => 0xe8 case 12 => 0x1c case 13 => 0x75 case 14 => 0xdf case 15 => 0x6e)
    case 10 => (match x & 0xf
      case 0 => 0x47 case 1 => 0xf1 case 2 => 0x1a case 3 => 0x71 case 4 => 0x1d case 5 => 0x29 case 6 => 0xc5 case 7 => 0x89 case 8 => 0x6f case 9 => 0xb7 case 10 => 0x62 case 11 => 0x0e case 12 => 0xaa case 13 => 0x18 case 14 => 0xbe case 15 => 0x1b)
    case 11 => (match x & 0xf
      case 0 => 0xfc case 1 => 0x56 case 2 => 0x3e case 3 => 0x4b case 4 => 0xc6 case 5 => 0xd2 case 6 => 0x79 case 7 => 0x20 case 8 => 0x9a case 9 => 0xdb case 10 => 0xc0 case 11 => 0xfe case 12 => 0x78 case 13 => 0xcd case 14 => 0x5a case 15 => 0xf4)
    case 12 => (match x & 0xf
      case 0 => 0x1f case 1 => 0xdd case 2 => 0xa8 case 3 => 0x33 case 4 => 0x88 case 5 => 0x07 case 6 => 0xc7 case 7 => 0x31 case 8 => 0xb1 case 9 => 0x12 case 10 => 0x10 case 11 => 0x59 case 12 => 0x27 case 13 => 0x80 case 14 => 0xec case 15 => 0x5f)
    case 13 => (match x & 0xf
      case 0 => 0x60 case 1 => 0x51 case 2 => 0x7f case 3 => 0xa9 case 4 => 0x19 case 5 => 0xb5 case 6 => 0x4a case 7 => 0x0d case 8 => 0x2d case 9 => 0xe5 case 10 => 0x7a case 11 => 0x9f case 12 => 0x93 case 13 => 0xc9 case 14 => 0x9c case 15 => 0xef)
    case 14 => (match x & 0xf
      case 0 => 0xa0 case 1 => 0xe0 case 2 => 0x3b case 3 => 0x4d case 4 => 0xae case 5 => 0x2a case 6 => 0xf5 case 7 => 0xb0 case 8 => 0xc8 case 9 => 0xeb case 10 => 0xbb case 11 => 0x3c case 12 => 0x83 case 13 => 0x53 case 14 => 0x99 case 15 => 0x61)
    case 15 => (match x & 0xf
      case 0 => 0x17 case 1 => 0x2b case 2 => 0x04 case 3 => 0x7e case 4 => 0xba case 5 => 0x77 case 6 => 0xd6 case 7 => 0x26 case 8 => 0xe1 case 9 => 0x69 case 10 => 0x14 case 11 => 0x63 case 12 => 0x55 case 13 => 0x21 case 14 => 0x0c case 15 => 0x7d)
  }

  /** Round constants, in the top byte of the word. */
  const RCON: seq<bv32> := [
    0x01000000, 0x02000000, 0x04000000, 0x08000000, 0x10000000,
    0x20000000, 0x40000000, 0x80000000, 0x1b000000, 0x36000000,
    0x6c000000, 0xd8000000, 0xab000000, 0x4d000000, 0x9a000000
  ]
}
