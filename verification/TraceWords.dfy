/** Five compressions worked out, eight rounds at a time. Nothing here is trusted: `KnownAnswers` checks
    every number against the rounds and the schedule of the standard. They are for the one block of the
    message "abc", and for the four blocks of an HMAC: the padded key and the text of the inner hash, the
    padded key and the inner digest of the outer one. */
module TraceWords {
  import opened Sha256

  /** The rounds to come: for each its word of the schedule, and the new `a` and `e`. */
  datatype Steps = Done | Step(w: word, a: word, e: word, rest: Steps)

  /** Round constants to come. */
  datatype Words = End | Word(k: word, rest: Words)

  function AbcSteps0(): Steps {
    Step(0x61626380, 0x5d6aebcd, 0xfa2a4622, Step(0x00000000, 0x5a6ad9ad, 0x78ce7989,
    Step(0x00000000, 0xc8c347a7, 0xf92939eb, Step(0x00000000, 0xd550f666, 0x24e00850,
    Step(0x00000000, 0x04409a6a, 0x43ada245, Step(0x00000000, 0x2b4209f5, 0x714260ad,
    Step(0x00000000, 0xe5030380, 0x9b27a401, Step(0x00000000, 0x85a07b5f, 0x0c657a79,
    Done))))))))
  }

  function AbcSteps1(): Steps {
    Step(0x00000000, 0x8e04ecb9, 0x32ca2d8c, Step(0x00000000, 0x8c87346b, 0x1cc92596,
    Step(0x00000000, 0x4798a3f4, 0x436b23e8, Step(0x00000000, 0xf71fc5a9, 0x816fd6e9,
    Step(0x00000000, 0x87912990, 0x1e578218, Step(0x00000000, 0xd932eb16, 0x745a48de,
    Step(0x00000000, 0xc0645fde, 0x0b92f20c, Step(0x00000018, 0xb0fa238e, 0x07590dcd,
    Done))))))))
  }

  function AbcSteps2(): Steps {
    Step(0x61626380, 0x21da9a9b, 0x8034229c, Step(0x000f0000, 0xc2fbd9d1, 0x846ee454,
    Step(0x7da86405, 0xfe777bbf, 0xcc899961, Step(0x600003c6, 0xe1f20c33, 0xb0638179,
    Step(0x3e9d7b78, 0x9dc68b63, 0x8ada8930, Step(0x0183fc00, 0xc2606d6d, 0xe1257970,
    Step(0x12dcbfdb, 0xa7a3623f, 0x49f5114a, Step(0xe2e2c38e, 0xc5d53d8d, 0xaa47c347,
    Done))))))))
  }

  function AbcSteps3(): Steps {
    Step(0xc8215c1a, 0x1c2c2838, 0x2823ef91, Step(0xb73679a2, 0xcde8037d, 0x14383d8e,
    Step(0xe5bc3909, 0xb62ec4bc, 0xc74c6516, Step(0x32663c5b, 0x77d37528, 0xedffbff8,
    Step(0x9d209d67, 0x363482c9, 0x6112a3b7, Step(0xec8726cb, 0xa0060b30, 0xade79437,
    Step(0x702138a4, 0xea992a22, 0x0109ab3a, Step(0xd3b7973b, 0x73b33bf5, 0xba591112,
    Done))))))))
  }

  function AbcSteps4(): Steps {
    Step(0x93f5997f, 0x98e12507, 0x9cd9f5f6, Step(0x3b68ba73, 0xfe604df5, 0x59249dd3,
    Step(0xaff4ffc1, 0xa9a7738c, 0x085f3833, Step(0xf10a5c62, 0x65a0cfe4, 0xf4b002d6,
    Step(0x0a8b3996, 0x41a65cb1, 0x0772a26b, Step(0x72af830a, 0x34df1604, 0xa507a53d,
    Step(0x9409e33e, 0x6dc57a8a, 0xf0781bc8, Step(0x24641522, 0x79ea687a, 0x1efbc0a0,
    Done))))))))
  }

  function AbcSteps5(): Steps {
    Step(0x9f47bf94, 0xd6670766, 0x26352d63, Step(0xf0a64f5a, 0xdf46652f, 0x838b2711,
    Step(0x3e246a79, 0x17aa0dfe, 0xdecd4715, Step(0x27333ba3, 0x9d4baf93, 0xfda24c2e,
    Step(0x0c4763f2, 0x26628815, 0xa80f11f0, Step(0x840abf27, 0x72ab4b91, 0xb7755da1,
    Step(0x7a290d5d, 0xa14c14b0, 0xd57b94a9, Step(0x065c43da, 0x4172328d, 0xfecf0bc6,
    Done))))))))
  }

  function AbcSteps6(): Steps {
    Step(0xfb3e89cb, 0x05757ceb, 0xbd714038, Step(0xcc7617db, 0xf11bfaa8, 0x6e5c390c,
    Step(0xb9e66c34, 0x7a0508a1, 0x52f1ccf7, Step(0xa9993667, 0x886e7a22, 0x49231c1e,
    Step(0x84badedd, 0x101fd28f, 0x529e7d00, Step(0xc21462bc, 0xf5702fdb, 0x9f4787c3,
    Step(0x1487472c, 0x3ec45cdb, 0xe50e1b4f, Step(0xb20f7a99, 0x38cc9913, 0x54cb266b,
    Done))))))))
  }

  function AbcSteps7(): Steps {
    Step(0xef57b9cd, 0xfcd1887b, 0x9b5e906c, Step(0xebe6b238, 0xc062d46f, 0x7e44008e,
    Step(0x9fe3095e, 0xffb70472, 0x6d83bfc6, Step(0x78bc8d4b, 0xb6ae8fff, 0xb21bad3d,
    Step(0xa43fcf15, 0xb85e2ce9, 0x961f4894, Step(0x668b2ff8, 0x04d24d6c, 0x948d25b6,
    Step(0xeeaba2cc, 0xd39a2165, 0xfb121210, Step(0x12b1edeb, 0x506e3058, 0x5ef50f24,
    Done))))))))
  }

  function InnerKeySteps0(): Steps {
    Step(0x7c535053, 0x785bd8a0, 0x151b32f5, Step(0x36363636, 0x983307d2, 0xa5de5788,
    Step(0x36363636, 0xe561c53c, 0xd42662d3, Step(0x36363636, 0x8c549b2f, 0x663f1212,
    Step(0x36363636, 0x53632755, 0xd7477e59, Step(0x36363636, 0x34561afc, 0x24389410,
    Step(0x36363636, 0x58778f6a, 0xa6e3644b, Step(0x36363636, 0x16fcd1de, 0x1f67d48a,
    Done))))))))
  }

  function InnerKeySteps1(): Steps {
    Step(0x36363636, 0x235471b0, 0x6a38013d, Step(0x36363636, 0xb0e25b7e, 0xfe30de3e,
    Step(0x36363636, 0xc29f7823, 0xe981ca81, Step(0x36363636, 0x1b918ad1, 0x435e9d84,
    Step(0x36363636, 0x07f487ee, 0x426da4d5, Step(0x36363636, 0x0aae579f, 0x4b6881fa,
    Step(0x36363636, 0x32f91b02, 0x22d64e87, Step(0x36363636, 0xd8a297b3, 0x40743133,
    Done))))))))
  }

  function InnerKeySteps2(): Steps {
    Step(0x7780fe00, 0x57ea9c70, 0x834c5d31, Step(0x3163e3e3, 0x0268f9a1, 0x5e22d8f7,
    Step(0xb47168a2, 0x3dbc498e, 0xef561db9, Step(0xe11539f8, 0xd9507501, 0x67d16b9d,
    Step(0xecfba47f, 0xc5318371, 0x6414d5ba, Step(0x8f8ebd79, 0x062e40f6, 0x7e976b52,
    Step(0xfa1ec89e, 0x17e2b319, 0x513641df, Step(0x1e0e70f6, 0xad9d4643, 0x27cec047,
    Done))))))))
  }

  function InnerKeySteps3(): Steps {
    Step(0x0c23673e, 0x08bb510a, 0x19db5e5c, Step(0xc8311559, 0x7c2a0dc2, 0x8d6241f3,
    Step(0xddee66a1, 0xd2451e37, 0x643e203e, Step(0xb28ed337, 0x0268fa1b, 0x46841870,
    Step(0xac9fc9a9, 0xedf2ce47, 0xf09bbf76, Step(0xcb4db29d, 0xf09b0708, 0x67e97303,
    Step(0x59369281, 0x078f5fb6, 0x905c490a, Step(0xe32830f3, 0xeaa1ecb4, 0xc6426440,
    Done))))))))
  }

  function InnerKeySteps4(): Steps {
    Step(0x136f5555, 0x3328a14d, 0x65d22258, Step(0x377ff55a, 0x6d2e4564, 0x55f8d8de,
    Step(0x4aa3e0f1, 0x83963ea4, 0x967f4f57, Step(0x9d19ff47, 0x68029891, 0xa23b5ecb,
    Step(0x926e254f, 0x1d8a1947, 0x52c2fa60, Step(0x39c2254f, 0x67625ada, 0xa5cf1142,
    Step(0x2731f000, 0x3b14694f, 0x8b47cae7, Step(0x2bd17abc, 0xa79b91d0, 0xfb81d2f6,
    Done))))))))
  }

  function InnerKeySteps5(): Steps {
    Step(0xf96d6a27, 0xb44f112a, 0xe1a23661, Step(0x6686c278, 0x09f97f87, 0xa239fc34,
    Step(0x616aea0c, 0x73144f72, 0x2c959b32, Step(0xb308442a, 0x232d24d1, 0xe30014cd,
    Step(0x5d1a34ff, 0x5cd1d6ed, 0x13126373, Step(0xca7159c9, 0xb803f3e1, 0xa7e30631,
    Step(0xd99ebf95, 0x6531bcdc, 0xa1815b66, Step(0xe1a34c15, 0x750ed7b4, 0xe2cdce6a,
    Done))))))))
  }

  function InnerKeySteps6(): Steps {
    Step(0x51dbd4be, 0x352963ee, 0x81387698, Step(0x7c986d13, 0xbd49faae, 0xc86fad2f,
    Step(0x71d1a48e, 0x9d2923ec, 0x6f83bf09, Step(0x39a42882, 0x7875932a, 0x93b9f32a,
    Step(0x53c21066, 0xfc2f1aae, 0xa2ecbc67, Step(0x1d686bfc, 0x3ac20327, 0x25c84e04,
    Step(0x7682d688, 0x80be9491, 0xc5fadb1d, Step(0xc08ab048, 0xc5a25619, 0x4677efca,
    Done))))))))
  }

  function InnerKeySteps7(): Steps {
    Step(0xf41238c8, 0x26d12d1d, 0x595f5238, Step(0x94e252cd, 0xecaa3749, 0x3cd11d02,
    Step(0x485d2762, 0xfc2dd2ee, 0x2e916135, Step(0xe20b3ab9, 0x79b8b244, 0xb37aa2eb,
    Step(0x8e7ad67d, 0x6142f8d4, 0x1ce682f3, Step(0xda8d1cc5, 0x1dade259, 0xbc1e4137,
    Step(0xb0eeaf96, 0x10db9cb2, 0xb1358bbd, Step(0x8739d375, 0xfb53c193, 0x536bd154,
    Done))))))))
  }

  function InnerTextSteps0(): Steps {
    Step(0x77686174, 0xb8e21a13, 0xa2fb95a0, Step(0x20646f20, 0x481dac7b, 0xff2a679c,
    Step(0x79612077, 0x62f20e4d, 0xff6ae436, Step(0x616e7420, 0x238af6c2, 0x3d07eed9,
    Step(0x666f7220, 0xf5d4dabb, 0x36f39d1a, Step(0x6e6f7468, 0x567dcdf7, 0xbf0823c8,
    Step(0x696e673f, 0xd609bdc3, 0x740ccf53, Step(0x80000000, 0x54c22a6c, 0x648372d6,
    Done))))))))
  }

  function InnerTextSteps1(): Steps {
    Step(0x00000000, 0xf630cd63, 0x46c05c5e, Step(0x00000000, 0x04bd02e2, 0x2f941670,
    Step(0x00000000, 0x5a575c57, 0x797c2276, Step(0x00000000, 0xd1f3d86b, 0x67225dae,
    Step(0x00000000, 0x09eca57c, 0xb6e243b9, Step(0x00000000, 0xf5842695, 0x053ab6db,
    Step(0x00000000, 0xd0e32bb8, 0x0000f140, Step(0x000002e0, 0xbf4e7f46, 0xda0d8141,
    Done))))))))
  }

  function InnerTextSteps2(): Steps {
    Step(0xd6ecae97, 0x03129a36, 0xab1d90bf, Step(0xcb53a736, 0x604a7248, 0xa76ff792,
    Step(0x0df4d52e, 0xeedaca00, 0xf8dabc32, Step(0x99470585, 0xbe87e7f9, 0x1ae1c552,
    Step(0x56ac588f, 0xbf0b0bf2, 0x835ed8a5, Step(0xbaf46d24, 0xf06fcc32, 0xb5b58232,
    Step(0x21b274b4, 0x79a0a5a9, 0x47aee404, Step(0x120525d6, 0x5b9a284d, 0x2f41410b,
    Done))))))))
  }

  function InnerTextSteps3(): Steps {
    Step(0x40189fa8, 0x96bb045f, 0x5fee007c, Step(0x444a1f39, 0x4263f6b0, 0xabd69400,
    Step(0xf57833ad, 0xe45cf572, 0xe0824704, Step(0xa316f0ba, 0x2baf19c4, 0x5f777975,
    Step(0xda928743, 0xfd6b63f2, 0xb908e6ba, Step(0xc8153509, 0x578885a2, 0x9f3a120e,
    Step(0xe63c58e9, 0xa80d8d52, 0x71d96c70, Step(0x9b063401, 0x3eebaf95, 0x76edd9cf,
    Done))))))))
  }

  function InnerTextSteps4(): Steps {
    Step(0x5fb8701b, 0x89640ed6, 0xaa989cf3, Step(0x06610ac3, 0x51552207, 0xbb9a0523,
    Step(0xc09ff909, 0x008c48f1, 0xfe4cc83f, Step(0x1a6d0e91, 0xb55acccf, 0xbc799f31,
    Step(0x67b9d8fd, 0x44a5d2ff, 0xdc9571de, Step(0xb9251d58, 0x89b963f0, 0x04e91075,
    Step(0x7b42c482, 0xc43e9334, 0x66ab4215, Step(0x1e4fcbae, 0x64336633, 0x01eb08e5,
    Done))))))))
  }

  function InnerTextSteps5(): Steps {
    Step(0x7f18d3ae, 0x6987babb, 0xc4e2f503, Step(0x6b3e02aa, 0x8ec6134f, 0xa2f775d7,
    Step(0x60acd3cc, 0x795b866f, 0x6f921a90, Step(0x09230471, 0x3d286fbb, 0xb45facdd,
    Step(0xcf103ae0, 0x9f6132f2, 0xb871c7e5, Step(0xff3e7122, 0xb5486ab0, 0x521dd93c,
    Step(0xbc028b24, 0xc30b4900, 0x2580f283, Step(0x31f8a0a0, 0x18eae95d, 0x68e92552,
    Done))))))))
  }

  function InnerTextSteps6(): Steps {
    Step(0xa4405ebd, 0x792962de, 0xdfc9235d, Step(0xa126f06e, 0xf8f9ec3e, 0x27e4057a,
    Step(0x5140b18d, 0x55103dbb, 0x66b8573a, Step(0x0f9727bc, 0xb1b19220, 0xd8fac404,
    Step(0x96dc649b, 0x72ebf845, 0x7f423327, Step(0xa7105035, 0x71f4ebf0, 0xc7cca388,
    Step(0x1955553f, 0xf1b65c41, 0x44832b00, Step(0x4cbc81fd, 0xe73f1bab, 0xdfe69826,
    Done))))))))
  }

  function InnerTextSteps7(): Steps {
    Step(0xf9992590, 0x69922978, 0x11c9754e, Step(0x2d78b115, 0x33a4ced7, 0xaae179f5,
    Step(0x48b2660c, 0x8d8a1bdb, 0xf21e79c4, Step(0xc566eb38, 0x39946bf0, 0xe17ff730,
    Step(0xbc4719f4, 0x1d9fb3df, 0x4d627acb, Step(0xbd8f6578, 0x0a8fb7b5, 0xf945ce35,
    Step(0xe71fceb9, 0x70e4aea1, 0x22f9a8cd, Step(0x023dd359, 0x3d86dd8c, 0xa3036879,
    Done))))))))
  }

  function OuterKeySteps0(): Steps {
    Step(0x16393a39, 0x1241c286, 0xaf011cdb, Step(0x5c5c5c5c, 0x455055eb, 0xafd267f0,
    Step(0x5c5c5c5c, 0x03637aee, 0x3d2fcf9f, Step(0x5c5c5c5c, 0x3c9c8844, 0xc9219e10,
    Step(0x5c5c5c5c, 0xcb1304a6, 0x98dc9837, Step(0x5c5c5c5c, 0xb1133397, 0x0f707dff,
    Step(0x5c5c5c5c, 0xe54a3493, 0xf3639443, Step(0x5c5c5c5c, 0x69435709, 0x4facc1d6,
    Done))))))))
  }

  function OuterKeySteps1(): Steps {
    Step(0x5c5c5c5c, 0x96d3fb5e, 0x915c0df4, Step(0x5c5c5c5c, 0xba42125f, 0x55649cc8,
    Step(0x5c5c5c5c, 0xc8369aca, 0x7f195390, Step(0x5c5c5c5c, 0xee376db8, 0xfef75e3d,
    Step(0x5c5c5c5c, 0xa1a61c47, 0xc247b35e, Step(0x5c5c5c5c, 0xdf63a889, 0x1f4a0977,
    Step(0x5c5c5c5c, 0x5e3eeba7, 0x7a1a23a6, Step(0x5c5c5c5c, 0xe7b8b56f, 0x85ada43a,
    Done))))))))
  }

  function OuterKeySteps2(): Steps {
    Step(0xbc6c6d6b, 0xc8ad2b06, 0xdad3ee9e, Step(0x028f8f8e, 0xa0d6a020, 0x52cc88f8,
    Step(0x18148f7c, 0x6643e281, 0x701600c4, Step(0x93133fd1, 0x3cbb1ed2, 0x019a631b,
    Step(0x33346707, 0x0b37ef52, 0x194d0d3a, Step(0x55131c00, 0x93238532, 0xdde54c39,
    Step(0x1c4c8fc1, 0xb3d8e080, 0xfba08193, Step(0xaa8252d7, 0x897a142a, 0xe78fa9c2,
    Done))))))))
  }

  function OuterKeySteps3(): Steps {
    Step(0xd92fce9a, 0xf9870a23, 0x85ea1054, Step(0x7bb09081, 0x1c11e5a3, 0x4204e95d,
    Step(0xb23c3c92, 0xa6dcfe16, 0x1418c4dc, Step(0x8e036611, 0x86103013, 0x27fa0221,
    Step(0xef8b1cd6, 0x66159104, 0xb7b33477, Step(0xfcb68659, 0x33c6b89d, 0xe1e1a8b5,
    Step(0x98cd1c4a, 0x466a3c05, 0x34384529, Step(0xa514d1ce, 0x223781a1, 0x28c05066,
    Done))))))))
  }

  function OuterKeySteps4(): Steps {
    Step(0x655e9871, 0xd822185e, 0x804e7b81, Step(0x80b14e30, 0x54ecb192, 0x49f215c3,
    Step(0xc3f7e470, 0xad7954cf, 0xf84d3cf0, Step(0x235e01a7, 0xe7d10d33, 0x85307daa,
    Step(0x0b79c2d8, 0xfb686937, 0x1931b9a7, Step(0x51112a82, 0x297f2869, 0x78316de1,
    Step(0xc947e091, 0xe332a1f9, 0xaf7ba84f, Step(0x9d17222d, 0x2085ac20, 0x5f583973,
    Done))))))))
  }

  function OuterKeySteps5(): Steps {
    Step(0x8fead71a, 0x6b28b082, 0xc5c881a9, Step(0xf1240136, 0x16966c26, 0x20d97726,
    Step(0xf2403484, 0xb476c398, 0xb7ff018f, Step(0x911ae6e0, 0x2a70095c, 0x29e86379,
    Step(0x6b8481a7, 0x5b5a8b27, 0x0fb4d10f, Step(0xb6c12283, 0x5009f43b, 0x466cefd5,
    Step(0xc47d12e8, 0xe65638ea, 0xee6c6342, Step(0x32b8fe41, 0x835aa22a, 0x354edc49,
    Done))))))))
  }

  function OuterKeySteps6(): Steps {
    Step(0xa4366b12, 0xdbfedfb7, 0x99f4a262, Step(0xd4bab7a3, 0xa0b0242f, 0x3d1ba64c,
    Step(0x18198b37, 0x4980a430, 0xa21a84e3, Step(0x5dc30ab5, 0x1ca2eaeb, 0xa4da44af,
    Step(0xfb56e209, 0xf2457593, 0xa9c7bd40, Step(0xbc47b487, 0xd2dbf54f, 0xd532b445,
    Step(0x298fa38f, 0xd3a780aa, 0x1946da48, Step(0xff6df23c, 0x8a8b3fbf, 0xa4a85ec7,
    Done))))))))
  }

  function OuterKeySteps7(): Steps {
    Step(0xfded1548, 0x05ccc2a3, 0xf1e61ceb, Step(0x6b3181fd, 0x8e535f40, 0xf63e3f0b,
    Step(0xe2eea69e, 0x6717179f, 0x17059133, Step(0xe11be15d, 0xb31fa7ba, 0xfcf30f33,
    Step(0x08859856, 0x87e76592, 0xf71074bc, Step(0xfacb39cf, 0x2dfb3c79, 0x043bc7df,
    Step(0xfeb10bf2, 0x57d97fe7, 0xd2ab2d5c, Step(0xd790cd34, 0xa4a5fd6e, 0x0096aac8,
    Done))))))))
  }

  function OuterDigestSteps0(): Steps {
    Step(0xa2e48586, 0xf0e59b1a, 0x3124ec49, Step(0x3d27f9d8, 0x74d0a70d, 0xd9d2a173,
    Step(0x64ac8d80, 0x3e39426b, 0xb4d11325, Step(0x2432a1ed, 0x3b3e45a9, 0x9b1e98cb,
    Step(0x477d8c4c, 0x13e61c3b, 0x2c0283b8, Step(0x6f349d16, 0xcb506feb, 0x4790de5c,
    Step(0xd4e7e917, 0x12acdcbb, 0x6939e327, Step(0xc629cad7, 0x5d1582d4, 0xf26e1dc0,
    Done))))))))
  }

  function OuterDigestSteps1(): Steps {
    Step(0x80000000, 0x299dafa1, 0x8a822374, Step(0x00000000, 0x96690f80, 0x064b4d17,
    Step(0x00000000, 0x75af6d08, 0x6d9dc752, Step(0x00000000, 0x38e7f5bb, 0x97b3f120,
    Step(0x00000000, 0xb3f53c2a, 0xac6ca791, Step(0x00000000, 0x9af3cfc9, 0x661ce7b3,
    Step(0x00000000, 0x8777eeed, 0x6a605c43, Step(0x00000300, 0x524a1ef8, 0x2e2fafb1,
    Done))))))))
  }

  function OuterDigestSteps2(): Steps {
    Step(0xec8d4507, 0x6ab009c8, 0xc1058262, Step(0x6e44cb58, 0x0b5d65cb, 0xcf16b054,
    Step(0xe57a2e78, 0xf737884e, 0x9b3f39bf, Step(0x1481a913, 0x14a85bed, 0xda2210a8,
    Step(0xa0c51e3a, 0x28d0682e, 0x4116203c, Step(0x20542d99, 0x513d0d3f, 0x9d044671,
    Step(0xc7d6bc99, 0xe78abb5d, 0x8488c299, Step(0x572ed109, 0xca1dd9eb, 0xf34d277d,
    Done))))))))
  }

  function OuterDigestSteps3(): Steps {
    Step(0x7832fa16, 0xaa4cb4b8, 0xc540f9ab, Step(0x982a793e, 0x80cb7f4b, 0x2a7734af,
    Step(0x36d9a8b4, 0x11668226, 0x370f480e, Step(0x1463b3c8, 0xf7c152af, 0x322ec278,
    Step(0x01955976, 0x804e3e18, 0x2b124b23, Step(0x776eccea, 0x88ff9220, 0x90550f47,
    Step(0x5f84771d, 0x6a101e8a, 0xad346d31, Step(0x7b31f508, 0xf5637c6b, 0x36193288,
    Done))))))))
  }

  function OuterDigestSteps4(): Steps {
    Step(0xc9f4aee0, 0xbac40fc4, 0xbea853de, Step(0xd055fb5c, 0x55d2eba2, 0xa3e697be,
    Step(0x0b79d67f, 0x342f2c31, 0x24b43db1, Step(0x7fe06bb1, 0xb17f8072, 0xe1ea1e98,
    Step(0x27530bc7, 0x3a8a934f, 0x6e0359bc, Step(0x3cdd17eb, 0x2e42d717, 0xd54ff5d9,
    Step(0xd3a5276a, 0x0d153365, 0x8e8430d5, Step(0xe79ef353, 0x0939a676, 0x0015e35d,
    Done))))))))
  }

  function OuterDigestSteps5(): Steps {
    Step(0x70708e40, 0xd04db10e, 0xa65e9472, Step(0x503a442e, 0x558052cc, 0x7003a10e,
    Step(0x8c04f280, 0xea1d3715, 0x23df2e45, Step(0x60a9ae13, 0x86ed36a6, 0x09255f8c,
    Step(0x8edf61fe, 0x31c61bbf, 0x9b30b56e, Step(0x5a70bc6a, 0x0795c206, 0xb061e903,
    Step(0x06d8cf63, 0xa4d05bd3, 0xc04b2c11, Step(0x2866cc9d, 0x5ab28db9, 0x4504e9e3,
    Done))))))))
  }

  function OuterDigestSteps6(): Steps {
    Step(0x7608691a, 0x4628a95a, 0x800d65f6, Step(0xa7182225, 0xd908ac74, 0x1ff07294,
    Step(0x1dc70eca, 0x11a2ef9d, 0xe4f56dbc, Step(0x6c947dd1, 0x2e630aba, 0x84aea861,
    Step(0x7c97dcae, 0x1eb1f18c, 0xf954931b, Step(0x7b09005f, 0x7ffaa436, 0xee54ab78,
    Step(0x19d1e2a0, 0x7e24f1f8, 0xfbf6b1b0, Step(0xab60d9da, 0x13793033, 0xbf9e1c90,
    Done))))))))
  }

  function OuterDigestSteps7(): Steps {
    Step(0xac37d412, 0x56d92dbb, 0x548c538d, Step(0x1236e096, 0x6f544952, 0xbbfbaad1,
    Step(0x4a8a3d6d, 0x989fc133, 0x3f0868ad, Step(0xbe58c2f1, 0x9b56f73d, 0xbf32e36d,
    Step(0x53d27161, 0xdb5e1afb, 0x11faf66e, Step(0xe25a87a5, 0xff99f43b, 0x7a2cb72f,
    Step(0xb53d7e5f, 0xac1f46e2, 0x2f76a39b, Step(0x0828fce9, 0x4d2cdd71, 0x085b41c1,
    Done))))))))
  }

  function Constants0(): Words {
    Word(0x428a2f98, Word(0x71374491, Word(0xb5c0fbcf, Word(0xe9b5dba5,
    Word(0x3956c25b, Word(0x59f111f1, Word(0x923f82a4, Word(0xab1c5ed5,
    End))))))))
  }

  function Constants1(): Words {
    Word(0xd807aa98, Word(0x12835b01, Word(0x243185be, Word(0x550c7dc3,
    Word(0x72be5d74, Word(0x80deb1fe, Word(0x9bdc06a7, Word(0xc19bf174,
    End))))))))
  }

  function Constants2(): Words {
    Word(0xe49b69c1, Word(0xefbe4786, Word(0x0fc19dc6, Word(0x240ca1cc,
    Word(0x2de92c6f, Word(0x4a7484aa, Word(0x5cb0a9dc, Word(0x76f988da,
    End))))))))
  }

  function Constants3(): Words {
    Word(0x983e5152, Word(0xa831c66d, Word(0xb00327c8, Word(0xbf597fc7,
    Word(0xc6e00bf3, Word(0xd5a79147, Word(0x06ca6351, Word(0x14292967,
    End))))))))
  }

  function Constants4(): Words {
    Word(0x27b70a85, Word(0x2e1b2138, Word(0x4d2c6dfc, Word(0x53380d13,
    Word(0x650a7354, Word(0x766a0abb, Word(0x81c2c92e, Word(0x92722c85,
    End))))))))
  }

  function Constants5(): Words {
    Word(0xa2bfe8a1, Word(0xa81a664b, Word(0xc24b8b70, Word(0xc76c51a3,
    Word(0xd192e819, Word(0xd6990624, Word(0xf40e3585, Word(0x106aa070,
    End))))))))
  }

  function Constants6(): Words {
    Word(0x19a4c116, Word(0x1e376c08, Word(0x2748774c, Word(0x34b0bcb5,
    Word(0x391c0cb3, Word(0x4ed8aa4a, Word(0x5b9cca4f, Word(0x682e6ff3,
    End))))))))
  }

  function Constants7(): Words {
    Word(0x748f82ee, Word(0x78a5636f, Word(0x84c87814, Word(0x8cc70208,
    Word(0x90befffa, Word(0xa4506ceb, Word(0xbef9a3f7, Word(0xc67178f2,
    End))))))))
  }
}
