// The two byte substitutions of AES: one byte of each entry of the literal
// tables Te4 and Td4 (Main/linux/aes.c), sixteen entries to a row.

module AesSbox {

  /** Byte i of a row, counted from its low end. */
  function Entry(row: bv128, i: bv8): bv8 {
    ((row >> (((i & 15) as bv128) << 3)) & 0xff) as bv8
  }

  /** The S-box, S[x] = Te4[x] & 0xff. */
  function S(x: bv8): bv8 {
    var row: bv128 := match x >> 4
      case 0 => 0x76abd7fe2b670130c56f6bf27b777c63
      case 1 => 0xc072a49cafa2d4adf04759fa7dc982ca
      case 2 => 0x1531d871f1e5a534ccf73f362693fdb7
      case 3 => 0x75b227ebe28012079a059618c323c704
      case 4 => 0x842fe329b3d63b52a05a6e1b1a2c8309
      case 5 => 0xcf584c4a39becb6a5bb1fc20ed00d153
      case 6 => 0xa89f3c507f02f94585334d43fbaaefd0
      case 7 => 0xd2f3ff1021dab6bcf5389d928f40a351
      case 8 => 0x73195d643d7ea7c41744975fec130ccd
      case 9 => 0xdb0b5ede14b8ee4688902a22dc4f8160
      case 10 => 0x79e4959162acd3c25c2406490a3a32e0
      case 11 => 0x08ae7a65eaf4566ca94ed58d6d37c8e7
      case 12 => 0x8a8bbd4b1f74dde8c6b4a61c2e2578ba
      case 13 => 0x9e1dc186b95735610ef6034866b53e70
      case 14 => 0xdf2855cee9871e9b948ed9691198f8e1
      case _ => 0x16bb54b00f2d99416842e6bf0d89a18c;
    Entry(row, x)
  }

  /** The inverse S-box, Si[x] = Td4[x] & 0xff. */
  function Si(x: bv8): bv8 {
    var row: bv128 := match x >> 4
      case 0 => 0xfbd7f3819ea340bf38a53630d56a0952
      case 1 => 0xcbe9dec444438e3487ff2f9b8239e37c
      case 2 => 0x4ec3fa420b954cee3d23c2a632947b54
      case 3 => 0x25d18b6d49a25b76b224d92866a12e08
      case 4 => 0x92b6655dcc5ca4d41698688664f6f872
      case 5 => 0x849d8da75746155edab9edfd5048706c
      case 6 => 0x0645b3b80558e4f70ad3bc8c00abd890
      case 7 => 0x6b8a130103bdafc1020f3fca8f1e2cd0
      case 8 => 0x73e6b4f0cecff297eadc674f4111913a
      case 9 => 0x6edf751ce837f9e28535ade72274ac96
      case 10 => 0x1bbe18aa0e62b76f89c5291d711af147
      case 11 => 0xf45acd78fec0db9a2079d2c64b3e56fc
      case 12 => 0x5fec8027591012b131c7078833a8dd1f
      case 13 => 0xef9cc9939f7ae52d0d4ab519a97f5160
      case 14 => 0x619953833cbbebc8b0f52aae4d3be0a0
      case _ => 0x7d0c2155631469e126d677ba7e042b17;
    Entry(row, x)
  }

  /** The second table undoes the first, so both list permutations. */
  lemma SboxInverse(x: bv8)
    ensures Si(S(x)) == x
  {
  }
}
