/** Where the constants of SHA-256 come from: roots of the first primes, sections 4.2.2 and 5.3.3 of FIPS 180-4. */
module Sha256Constants {
  import opened Fips180

  /** `c` and the 32 bits `k` after the point are the cube root of `p`, cut off there. */
  ghost predicate IsCubeRoot(p: int, c: int, k: int) {
    && c * c * c <= p < (c + 1) * (c + 1) * (c + 1)
    && (c * 0x1_0000_0000 + k) * (c * 0x1_0000_0000 + k) * (c * 0x1_0000_0000 + k)
       <= p * 0x1_0000_0000_0000_0000_0000_0000
       < (c * 0x1_0000_0000 + k + 1) * (c * 0x1_0000_0000 + k + 1) * (c * 0x1_0000_0000 + k + 1)
  }

  ghost predicate IsSquareRoot(p: int, c: int, k: int) {
    && c * c <= p < (c + 1) * (c + 1)
    && (c * 0x1_0000_0000 + k) * (c * 0x1_0000_0000 + k)
       <= p * 0x1_0000_0000_0000_0000
       < (c * 0x1_0000_0000 + k + 1) * (c * 0x1_0000_0000 + k + 1)
  }

  /** The first 32 bits of the fractional part of the cube root of `p`. */
  ghost predicate CubeRootBits(p: int, k: int) {
    0 <= k < 0x1_0000_0000 && exists c: nat :: IsCubeRoot(p, c, k)
  }

  /** The same of the square root. */
  ghost predicate SquareRootBits(p: int, k: int) {
    0 <= k < 0x1_0000_0000 && exists c: nat :: IsSquareRoot(p, c, k)
  }

  const P0: seq<int> := [2, 3, 5, 7, 11, 13, 17, 19]
  const P1: seq<int> := [23, 29, 31, 37, 41, 43, 47, 53]
  const P2: seq<int> := [59, 61, 67, 71, 73, 79, 83, 89]
  const P3: seq<int> := [97, 101, 103, 107, 109, 113, 127, 131]
  const P4: seq<int> := [137, 139, 149, 151, 157, 163, 167, 173]
  const P5: seq<int> := [179, 181, 191, 193, 197, 199, 211, 223]
  const P6: seq<int> := [227, 229, 233, 239, 241, 251, 257, 263]
  const P7: seq<int> := [269, 271, 277, 281, 283, 293, 307, 311]

  const PRIMES: seq<int> := P0 + P1 + P2 + P3 + P4 + P5 + P6 + P7

  /** Not the product of two smaller factors. */
  ghost predicate IsPrime(n: int) {
    n >= 2 && forall a, b :: 2 <= a && 2 <= b ==> a * b != n
  }

  /** Not divisible by a prime below 19, except by itself. */
  predicate Sieved(n: int) {
    && n >= 2
    && (n % 2 != 0 || n == 2) && (n % 3 != 0 || n == 3) && (n % 5 != 0 || n == 5) && (n % 7 != 0 || n == 7)
    && (n % 11 != 0 || n == 11) && (n % 13 != 0 || n == 13) && (n % 17 != 0 || n == 17)
  }

  /** A number up to 18 is a multiple of a prime below 19. */
  lemma SmallPrimeFactor(m: int) returns (q: int, r: int)
    requires 2 <= m <= 18
    ensures q in {2, 3, 5, 7, 11, 13, 17} && r >= 1 && m == q * r
  {
    q := if m % 2 == 0 then 2 else if m % 3 == 0 then 3 else m;
    r := m / q;
  }

  lemma MultiplesAreSievedOut(q: int, x: int)
    requires q in {2, 3, 5, 7, 11, 13, 17} && x >= 2
    ensures !Sieved(q * x)
  {
    if q == 2 {
      assert (2 * x) % 2 == 0;
    } else if q == 3 {
      assert (3 * x) % 3 == 0;
    } else if q == 5 {
      assert (5 * x) % 5 == 0;
    } else if q == 7 {
      assert (7 * x) % 7 == 0;
    } else if q == 11 {
      assert (11 * x) % 11 == 0;
    } else if q == 13 {
      assert (13 * x) % 13 == 0;
    } else {
      assert (17 * x) % 17 == 0;
    }
  }

  lemma ProductsAreSievedOut(a: int, b: int)
    requires 2 <= a <= b && a * b < 361
    ensures !Sieved(a * b)
  {
    SmallerBelow19(a, b);
    var q, r := SmallPrimeFactor(a);
    Reassociate(q, r, b);
    MultiplesAreSievedOut(q, r * b);
  }

  lemma SmallerBelow19(a: int, b: int)
    requires 2 <= a <= b && a * b < 361
    ensures a <= 18
  {
    if a >= 19 {
      AtLeastSquare(a, b);
      assert false;
    }
  }

  lemma AtLeastSquare(a: int, b: int)
    requires 19 <= a <= b
    ensures a * b >= 361
  {
    assert (a - 19) * b >= 0;
  }

  lemma Reassociate(q: int, r: int, b: int)
    requires r >= 1 && b >= 2
    ensures q * r * b == q * (r * b) && r * b >= 2
  {
    assert (r - 1) * b >= 0;
  }

  /** Below 361 the sieved numbers are the primes. */
  lemma SievedIsPrime(n: int)
    requires n < 361
    ensures Sieved(n) <==> IsPrime(n)
  {
    if Sieved(n) {
      forall a, b | 2 <= a && 2 <= b
        ensures a * b != n
      {
        if a * b == n {
          if a <= b {
            ProductsAreSievedOut(a, b);
          } else {
            assert b * a == n;
            ProductsAreSievedOut(b, a);
          }
          assert false;
        }
      }
    }
    if n >= 2 && !Sieved(n) {
      var q := SievedBy(n);
      assert q * (n / q) == n;
    }
  }

  lemma SievedBy(n: int) returns (q: int)
    requires n >= 2 && !Sieved(n)
    ensures q >= 2 && n / q >= 2 && q * (n / q) == n
  {
    q := if n % 2 == 0 && n != 2 then 2 else if n % 3 == 0 && n != 3 then 3 else if n % 5 == 0 && n != 5 then 5
         else if n % 7 == 0 && n != 7 then 7 else if n % 11 == 0 && n != 11 then 11
         else if n % 13 == 0 && n != 13 then 13 else 17;
  }

  lemma RowIs0(i: nat)
    requires 0 <= i < 8
    ensures PRIMES[i] == P0[i] && (i > 0 ==> PRIMES[i - 1] == P0[i - 1])
  {
  }

  lemma PrimesOfRow0(i: nat, n: int)
    requires 0 <= i < 8
    ensures PRIMES[i] < 361 && (i > 0 ==> PRIMES[i - 1] < PRIMES[i])
    ensures n <= PRIMES[i] && (i > 0 ==> PRIMES[i - 1] < n) ==> (Sieved(n) <==> n == PRIMES[i])
  {
    RowIs0(i);
    match i
    case 0 => assert P0[0] == 2;
    case 1 =>
      assert P0[1] == 3 && P0[0] == 2;
      if 2 < n <= 3 {
        assert n == 3;
      }
    case 2 =>
      assert P0[2] == 5 && P0[1] == 3;
      if 3 < n <= 5 {
        assert n == 4 || n == 5;
      }
    case 3 =>
      assert P0[3] == 7 && P0[2] == 5;
      if 5 < n <= 7 {
        assert n == 6 || n == 7;
      }
    case 4 =>
      assert P0[4] == 11 && P0[3] == 7;
      if 7 < n <= 11 {
        assert n == 8 || n == 9 || n == 10 || n == 11;
      }
    case 5 =>
      assert P0[5] == 13 && P0[4] == 11;
      if 11 < n <= 13 {
        assert n == 12 || n == 13;
      }
    case 6 =>
      assert P0[6] == 17 && P0[5] == 13;
      if 13 < n <= 17 {
        assert n == 14 || n == 15 || n == 16 || n == 17;
      }
    case _ =>
      assert P0[7] == 19 && P0[6] == 17;
      if 17 < n <= 19 {
        assert n == 18 || n == 19;
      }
  }

  lemma RowIs1(i: nat)
    requires 8 <= i < 16
    ensures PRIMES[i] == P1[i - 8] && PRIMES[i - 1] == if i == 8 then P0[7] else P1[i - 9]
  {
  }

  lemma PrimesOfRow1(i: nat, n: int)
    requires 8 <= i < 16
    ensures PRIMES[i] < 361 && (i > 0 ==> PRIMES[i - 1] < PRIMES[i])
    ensures n <= PRIMES[i] && (i > 0 ==> PRIMES[i - 1] < n) ==> (Sieved(n) <==> n == PRIMES[i])
  {
    RowIs1(i);
    match i
    case 8 =>
      assert P1[0] == 23 && P0[7] == 19;
      if 19 < n <= 23 {
        assert n == 20 || n == 21 || n == 22 || n == 23;
      }
    case 9 =>
      assert P1[1] == 29 && P1[0] == 23;
      if 23 < n <= 29 {
        assert n == 24 || n == 25 || n == 26 || n == 27 || n == 28 || n == 29;
      }
    case 10 =>
      assert P1[2] == 31 && P1[1] == 29;
      if 29 < n <= 31 {
        assert n == 30 || n == 31;
      }
    case 11 =>
      assert P1[3] == 37 && P1[2] == 31;
      if 31 < n <= 37 {
        assert n == 32 || n == 33 || n == 34 || n == 35 || n == 36 || n == 37;
      }
    case 12 =>
      assert P1[4] == 41 && P1[3] == 37;
      if 37 < n <= 41 {
        assert n == 38 || n == 39 || n == 40 || n == 41;
      }
    case 13 =>
      assert P1[5] == 43 && P1[4] == 41;
      if 41 < n <= 43 {
        assert n == 42 || n == 43;
      }
    case 14 =>
      assert P1[6] == 47 && P1[5] == 43;
      if 43 < n <= 47 {
        assert n == 44 || n == 45 || n == 46 || n == 47;
      }
    case _ =>
      assert P1[7] == 53 && P1[6] == 47;
      if 47 < n <= 53 {
        assert n == 48 || n == 49 || n == 50 || n == 51 || n == 52 || n == 53;
      }
  }

  lemma RowIs2(i: nat)
    requires 16 <= i < 24
    ensures PRIMES[i] == P2[i - 16] && PRIMES[i - 1] == if i == 16 then P1[7] else P2[i - 17]
  {
  }

  lemma PrimesOfRow2(i: nat, n: int)
    requires 16 <= i < 24
    ensures PRIMES[i] < 361 && (i > 0 ==> PRIMES[i - 1] < PRIMES[i])
    ensures n <= PRIMES[i] && (i > 0 ==> PRIMES[i - 1] < n) ==> (Sieved(n) <==> n == PRIMES[i])
  {
    RowIs2(i);
    match i
    case 16 =>
      assert P2[0] == 59 && P1[7] == 53;
      if 53 < n <= 59 {
        assert n == 54 || n == 55 || n == 56 || n == 57 || n == 58 || n == 59;
      }
    case 17 =>
      assert P2[1] == 61 && P2[0] == 59;
      if 59 < n <= 61 {
        assert n == 60 || n == 61;
      }
    case 18 =>
      assert P2[2] == 67 && P2[1] == 61;
      if 61 < n <= 67 {
        assert n == 62 || n == 63 || n == 64 || n == 65 || n == 66 || n == 67;
      }
    case 19 =>
      assert P2[3] == 71 && P2[2] == 67;
      if 67 < n <= 71 {
        assert n == 68 || n == 69 || n == 70 || n == 71;
      }
    case 20 =>
      assert P2[4] == 73 && P2[3] == 71;
      if 71 < n <= 73 {
        assert n == 72 || n == 73;
      }
    case 21 =>
      assert P2[5] == 79 && P2[4] == 73;
      if 73 < n <= 79 {
        assert n == 74 || n == 75 || n == 76 || n == 77 || n == 78 || n == 79;
      }
    case 22 =>
      assert P2[6] == 83 && P2[5] == 79;
      if 79 < n <= 83 {
        assert n == 80 || n == 81 || n == 82 || n == 83;
      }
    case _ =>
      assert P2[7] == 89 && P2[6] == 83;
      if 83 < n <= 89 {
        assert n == 84 || n == 85 || n == 86 || n == 87 || n == 88 || n == 89;
      }
  }

  lemma RowIs3(i: nat)
    requires 24 <= i < 32
    ensures PRIMES[i] == P3[i - 24] && PRIMES[i - 1] == if i == 24 then P2[7] else P3[i - 25]
  {
  }

  lemma PrimesOfRow3(i: nat, n: int)
    requires 24 <= i < 32
    ensures PRIMES[i] < 361 && (i > 0 ==> PRIMES[i - 1] < PRIMES[i])
    ensures n <= PRIMES[i] && (i > 0 ==> PRIMES[i - 1] < n) ==> (Sieved(n) <==> n == PRIMES[i])
  {
    RowIs3(i);
    match i
    case 24 =>
      assert P3[0] == 97 && P2[7] == 89;
      if 89 < n <= 97 {
        assert n == 90 || n == 91 || n == 92 || n == 93 || n == 94 || n == 95 || n == 96 || n == 97;
      }
    case 25 =>
      assert P3[1] == 101 && P3[0] == 97;
      if 97 < n <= 101 {
        assert n == 98 || n == 99 || n == 100 || n == 101;
      }
    case 26 =>
      assert P3[2] == 103 && P3[1] == 101;
      if 101 < n <= 103 {
        assert n == 102 || n == 103;
      }
    case 27 =>
      assert P3[3] == 107 && P3[2] == 103;
      if 103 < n <= 107 {
        assert n == 104 || n == 105 || n == 106 || n == 107;
      }
    case 28 =>
      assert P3[4] == 109 && P3[3] == 107;
      if 107 < n <= 109 {
        assert n == 108 || n == 109;
      }
    case 29 =>
      assert P3[5] == 113 && P3[4] == 109;
      if 109 < n <= 113 {
        assert n == 110 || n == 111 || n == 112 || n == 113;
      }
    case 30 =>
      assert P3[6] == 127 && P3[5] == 113;
      if 113 < n <= 127 {
        assert n == 114 || n == 115 || n == 116 || n == 117 || n == 118 || n == 119 || n == 120 || n == 121 ||
               n == 122 || n == 123 || n == 124 || n == 125 || n == 126 || n == 127;
      }
    case _ =>
      assert P3[7] == 131 && P3[6] == 127;
      if 127 < n <= 131 {
        assert n == 128 || n == 129 || n == 130 || n == 131;
      }
  }

  lemma RowIs4(i: nat)
    requires 32 <= i < 40
    ensures PRIMES[i] == P4[i - 32] && PRIMES[i - 1] == if i == 32 then P3[7] else P4[i - 33]
  {
  }

  lemma PrimesOfRow4(i: nat, n: int)
    requires 32 <= i < 40
    ensures PRIMES[i] < 361 && (i > 0 ==> PRIMES[i - 1] < PRIMES[i])
    ensures n <= PRIMES[i] && (i > 0 ==> PRIMES[i - 1] < n) ==> (Sieved(n) <==> n == PRIMES[i])
  {
    RowIs4(i);
    match i
    case 32 =>
      assert P4[0] == 137 && P3[7] == 131;
      if 131 < n <= 137 {
        assert n == 132 || n == 133 || n == 134 || n == 135 || n == 136 || n == 137;
      }
    case 33 =>
      assert P4[1] == 139 && P4[0] == 137;
      if 137 < n <= 139 {
        assert n == 138 || n == 139;
      }
    case 34 =>
      assert P4[2] == 149 && P4[1] == 139;
      if 139 < n <= 149 {
        assert n == 140 || n == 141 || n == 142 || n == 143 || n == 144 || n == 145 || n == 146 || n == 147 ||
               n == 148 || n == 149;
      }
    case 35 =>
      assert P4[3] == 151 && P4[2] == 149;
      if 149 < n <= 151 {
        assert n == 150 || n == 151;
      }
    case 36 =>
      assert P4[4] == 157 && P4[3] == 151;
      if 151 < n <= 157 {
        assert n == 152 || n == 153 || n == 154 || n == 155 || n == 156 || n == 157;
      }
    case 37 =>
      assert P4[5] == 163 && P4[4] == 157;
      if 157 < n <= 163 {
        assert n == 158 || n == 159 || n == 160 || n == 161 || n == 162 || n == 163;
      }
    case 38 =>
      assert P4[6] == 167 && P4[5] == 163;
      if 163 < n <= 167 {
        assert n == 164 || n == 165 || n == 166 || n == 167;
      }
    case _ =>
      assert P4[7] == 173 && P4[6] == 167;
      if 167 < n <= 173 {
        assert n == 168 || n == 169 || n == 170 || n == 171 || n == 172 || n == 173;
      }
  }

  lemma RowIs5(i: nat)
    requires 40 <= i < 48
    ensures PRIMES[i] == P5[i - 40] && PRIMES[i - 1] == if i == 40 then P4[7] else P5[i - 41]
  {
  }

  lemma PrimesOfRow5(i: nat, n: int)
    requires 40 <= i < 48
    ensures PRIMES[i] < 361 && (i > 0 ==> PRIMES[i - 1] < PRIMES[i])
    ensures n <= PRIMES[i] && (i > 0 ==> PRIMES[i - 1] < n) ==> (Sieved(n) <==> n == PRIMES[i])
  {
    RowIs5(i);
    match i
    case 40 =>
      assert P5[0] == 179 && P4[7] == 173;
      if 173 < n <= 179 {
        assert n == 174 || n == 175 || n == 176 || n == 177 || n == 178 || n == 179;
      }
    case 41 =>
      assert P5[1] == 181 && P5[0] == 179;
      if 179 < n <= 181 {
        assert n == 180 || n == 181;
      }
    case 42 =>
      assert P5[2] == 191 && P5[1] == 181;
      if 181 < n <= 191 {
        assert n == 182 || n == 183 || n == 184 || n == 185 || n == 186 || n == 187 || n == 188 || n == 189 ||
               n == 190 || n == 191;
      }
    case 43 =>
      assert P5[3] == 193 && P5[2] == 191;
      if 191 < n <= 193 {
        assert n == 192 || n == 193;
      }
    case 44 =>
      assert P5[4] == 197 && P5[3] == 193;
      if 193 < n <= 197 {
        assert n == 194 || n == 195 || n == 196 || n == 197;
      }
    case 45 =>
      assert P5[5] == 199 && P5[4] == 197;
      if 197 < n <= 199 {
        assert n == 198 || n == 199;
      }
    case 46 =>
      assert P5[6] == 211 && P5[5] == 199;
      if 199 < n <= 211 {
        assert n == 200 || n == 201 || n == 202 || n == 203 || n == 204 || n == 205 || n == 206 || n == 207 ||
               n == 208 || n == 209 || n == 210 || n == 211;
      }
    case _ =>
      assert P5[7] == 223 && P5[6] == 211;
      if 211 < n <= 223 {
        assert n == 212 || n == 213 || n == 214 || n == 215 || n == 216 || n == 217 || n == 218 || n == 219 ||
               n == 220 || n == 221 || n == 222 || n == 223;
      }
  }

  lemma RowIs6(i: nat)
    requires 48 <= i < 56
    ensures PRIMES[i] == P6[i - 48] && PRIMES[i - 1] == if i == 48 then P5[7] else P6[i - 49]
  {
  }

  lemma PrimesOfRow6(i: nat, n: int)
    requires 48 <= i < 56
    ensures PRIMES[i] < 361 && (i > 0 ==> PRIMES[i - 1] < PRIMES[i])
    ensures n <= PRIMES[i] && (i > 0 ==> PRIMES[i - 1] < n) ==> (Sieved(n) <==> n == PRIMES[i])
  {
    RowIs6(i);
    match i
    case 48 =>
      assert P6[0] == 227 && P5[7] == 223;
      if 223 < n <= 227 {
        assert n == 224 || n == 225 || n == 226 || n == 227;
      }
    case 49 =>
      assert P6[1] == 229 && P6[0] == 227;
      if 227 < n <= 229 {
        assert n == 228 || n == 229;
      }
    case 50 =>
      assert P6[2] == 233 && P6[1] == 229;
      if 229 < n <= 233 {
        assert n == 230 || n == 231 || n == 232 || n == 233;
      }
    case 51 =>
      assert P6[3] == 239 && P6[2] == 233;
      if 233 < n <= 239 {
        assert n == 234 || n == 235 || n == 236 || n == 237 || n == 238 || n == 239;
      }
    case 52 =>
      assert P6[4] == 241 && P6[3] == 239;
      if 239 < n <= 241 {
        assert n == 240 || n == 241;
      }
    case 53 =>
      assert P6[5] == 251 && P6[4] == 241;
      if 241 < n <= 251 {
        assert n == 242 || n == 243 || n == 244 || n == 245 || n == 246 || n == 247 || n == 248 || n == 249 ||
               n == 250 || n == 251;
      }
    case 54 =>
      assert P6[6] == 257 && P6[5] == 251;
      if 251 < n <= 257 {
        assert n == 252 || n == 253 || n == 254 || n == 255 || n == 256 || n == 257;
      }
    case _ =>
      assert P6[7] == 263 && P6[6] == 257;
      if 257 < n <= 263 {
        assert n == 258 || n == 259 || n == 260 || n == 261 || n == 262 || n == 263;
      }
  }

  lemma RowIs7(i: nat)
    requires 56 <= i < 64
    ensures PRIMES[i] == P7[i - 56] && PRIMES[i - 1] == if i == 56 then P6[7] else P7[i - 57]
  {
  }

  lemma PrimesOfRow7(i: nat, n: int)
    requires 56 <= i < 64
    ensures PRIMES[i] < 361 && (i > 0 ==> PRIMES[i - 1] < PRIMES[i])
    ensures n <= PRIMES[i] && (i > 0 ==> PRIMES[i - 1] < n) ==> (Sieved(n) <==> n == PRIMES[i])
  {
    RowIs7(i);
    match i
    case 56 =>
      assert P7[0] == 269 && P6[7] == 263;
      if 263 < n <= 269 {
        assert n == 264 || n == 265 || n == 266 || n == 267 || n == 268 || n == 269;
      }
    case 57 =>
      assert P7[1] == 271 && P7[0] == 269;
      if 269 < n <= 271 {
        assert n == 270 || n == 271;
      }
    case 58 =>
      assert P7[2] == 277 && P7[1] == 271;
      if 271 < n <= 277 {
        assert n == 272 || n == 273 || n == 274 || n == 275 || n == 276 || n == 277;
      }
    case 59 =>
      assert P7[3] == 281 && P7[2] == 277;
      if 277 < n <= 281 {
        assert n == 278 || n == 279 || n == 280 || n == 281;
      }
    case 60 =>
      assert P7[4] == 283 && P7[3] == 281;
      if 281 < n <= 283 {
        assert n == 282 || n == 283;
      }
    case 61 =>
      assert P7[5] == 293 && P7[4] == 283;
      if 283 < n <= 293 {
        assert n == 284 || n == 285 || n == 286 || n == 287 || n == 288 || n == 289 || n == 290 || n == 291 ||
               n == 292 || n == 293;
      }
    case 62 =>
      assert P7[6] == 307 && P7[5] == 293;
      if 293 < n <= 307 {
        assert n == 294 || n == 295 || n == 296 || n == 297 || n == 298 || n == 299 || n == 300 || n == 301 ||
               n == 302 || n == 303 || n == 304 || n == 305 || n == 306 || n == 307;
      }
    case _ =>
      assert P7[7] == 311 && P7[6] == 307;
      if 307 < n <= 311 {
        assert n == 308 || n == 309 || n == 310 || n == 311;
      }
  }

  lemma PrimeOfRow(i: nat, n: int)
    requires i < 64 == |PRIMES|
    ensures PRIMES[i] < 361 && (i > 0 ==> PRIMES[i - 1] < PRIMES[i])
    ensures n <= PRIMES[i] && (i > 0 ==> PRIMES[i - 1] < n) ==> (Sieved(n) <==> n == PRIMES[i])
  {
    hide Sieved;
    if i < 8 {
      PrimesOfRow0(i, n);
    } else if i < 16 {
      PrimesOfRow1(i, n);
    } else if i < 24 {
      PrimesOfRow2(i, n);
    } else if i < 32 {
      PrimesOfRow3(i, n);
    } else if i < 40 {
      PrimesOfRow4(i, n);
    } else if i < 48 {
      PrimesOfRow5(i, n);
    } else if i < 56 {
      PrimesOfRow6(i, n);
    } else {
      PrimesOfRow7(i, n);
    }
  }

  /** The table holds the first 64 primes: it increases, and up to each entry the next prime is that entry. */
  lemma FirstPrimes(i: nat, n: int)
    requires i < 64
    ensures |PRIMES| == 64 && (i > 0 ==> PRIMES[i - 1] < PRIMES[i])
    ensures n <= PRIMES[i] && (i > 0 ==> PRIMES[i - 1] < n) ==> (IsPrime(n) <==> n == PRIMES[i])
  {
    hide IsPrime, Sieved;
    PrimeOfRow(i, n);
    if n < 361 {
      SievedIsPrime(n);
    }
  }

  lemma CubeRoots0()
    ensures IsCubeRoot(2, 1, 0x428a2f98)
    ensures IsCubeRoot(3, 1, 0x71374491)
    ensures IsCubeRoot(5, 1, 0xb5c0fbcf)
    ensures IsCubeRoot(7, 1, 0xe9b5dba5)
    ensures IsCubeRoot(11, 2, 0x3956c25b)
    ensures IsCubeRoot(13, 2, 0x59f111f1)
    ensures IsCubeRoot(17, 2, 0x923f82a4)
    ensures IsCubeRoot(19, 2, 0xab1c5ed5)
  {
  }

  lemma ConstantsOfRow0(i: nat)
    requires 0 <= i < 8
    ensures CubeRootBits(PRIMES[i], K[i] as int)
  {
    hide IsCubeRoot;
    CubeRoots0();
    assert PRIMES[i] == P0[i - 0] && K[i] == K0[i - 0];
    match i
    case 0 => assert P0[0] == 2 && K0[0] as int == 0x428a2f98;
    case 1 => assert P0[1] == 3 && K0[1] as int == 0x71374491;
    case 2 => assert P0[2] == 5 && K0[2] as int == 0xb5c0fbcf;
    case 3 => assert P0[3] == 7 && K0[3] as int == 0xe9b5dba5;
    case 4 => assert P0[4] == 11 && K0[4] as int == 0x3956c25b;
    case 5 => assert P0[5] == 13 && K0[5] as int == 0x59f111f1;
    case 6 => assert P0[6] == 17 && K0[6] as int == 0x923f82a4;
    case _ => assert P0[7] == 19 && K0[7] as int == 0xab1c5ed5;
  }

  lemma CubeRoots1()
    ensures IsCubeRoot(23, 2, 0xd807aa98)
    ensures IsCubeRoot(29, 3, 0x12835b01)
    ensures IsCubeRoot(31, 3, 0x243185be)
    ensures IsCubeRoot(37, 3, 0x550c7dc3)
    ensures IsCubeRoot(41, 3, 0x72be5d74)
    ensures IsCubeRoot(43, 3, 0x80deb1fe)
    ensures IsCubeRoot(47, 3, 0x9bdc06a7)
    ensures IsCubeRoot(53, 3, 0xc19bf174)
  {
  }

  lemma ConstantsOfRow1(i: nat)
    requires 8 <= i < 16
    ensures CubeRootBits(PRIMES[i], K[i] as int)
  {
    hide IsCubeRoot;
    CubeRoots1();
    assert PRIMES[i] == P1[i - 8] && K[i] == K1[i - 8];
    match i
    case 8 => assert P1[0] == 23 && K1[0] as int == 0xd807aa98;
    case 9 => assert P1[1] == 29 && K1[1] as int == 0x12835b01;
    case 10 => assert P1[2] == 31 && K1[2] as int == 0x243185be;
    case 11 => assert P1[3] == 37 && K1[3] as int == 0x550c7dc3;
    case 12 => assert P1[4] == 41 && K1[4] as int == 0x72be5d74;
    case 13 => assert P1[5] == 43 && K1[5] as int == 0x80deb1fe;
    case 14 => assert P1[6] == 47 && K1[6] as int == 0x9bdc06a7;
    case _ => assert P1[7] == 53 && K1[7] as int == 0xc19bf174;
  }

  lemma CubeRoots2()
    ensures IsCubeRoot(59, 3, 0xe49b69c1)
    ensures IsCubeRoot(61, 3, 0xefbe4786)
    ensures IsCubeRoot(67, 4, 0x0fc19dc6)
    ensures IsCubeRoot(71, 4, 0x240ca1cc)
    ensures IsCubeRoot(73, 4, 0x2de92c6f)
    ensures IsCubeRoot(79, 4, 0x4a7484aa)
    ensures IsCubeRoot(83, 4, 0x5cb0a9dc)
    ensures IsCubeRoot(89, 4, 0x76f988da)
  {
  }

  lemma ConstantsOfRow2(i: nat)
    requires 16 <= i < 24
    ensures CubeRootBits(PRIMES[i], K[i] as int)
  {
    hide IsCubeRoot;
    CubeRoots2();
    assert PRIMES[i] == P2[i - 16] && K[i] == K2[i - 16];
    match i
    case 16 => assert P2[0] == 59 && K2[0] as int == 0xe49b69c1;
    case 17 => assert P2[1] == 61 && K2[1] as int == 0xefbe4786;
    case 18 => assert P2[2] == 67 && K2[2] as int == 0x0fc19dc6;
    case 19 => assert P2[3] == 71 && K2[3] as int == 0x240ca1cc;
    case 20 => assert P2[4] == 73 && K2[4] as int == 0x2de92c6f;
    case 21 => assert P2[5] == 79 && K2[5] as int == 0x4a7484aa;
    case 22 => assert P2[6] == 83 && K2[6] as int == 0x5cb0a9dc;
    case _ => assert P2[7] == 89 && K2[7] as int == 0x76f988da;
  }

  lemma CubeRoots3()
    ensures IsCubeRoot(97, 4, 0x983e5152)
    ensures IsCubeRoot(101, 4, 0xa831c66d)
    ensures IsCubeRoot(103, 4, 0xb00327c8)
    ensures IsCubeRoot(107, 4, 0xbf597fc7)
    ensures IsCubeRoot(109, 4, 0xc6e00bf3)
    ensures IsCubeRoot(113, 4, 0xd5a79147)
    ensures IsCubeRoot(127, 5, 0x06ca6351)
    ensures IsCubeRoot(131, 5, 0x14292967)
  {
  }

  lemma ConstantsOfRow3(i: nat)
    requires 24 <= i < 32
    ensures CubeRootBits(PRIMES[i], K[i] as int)
  {
    hide IsCubeRoot;
    CubeRoots3();
    assert PRIMES[i] == P3[i - 24] && K[i] == K3[i - 24];
    match i
    case 24 => assert P3[0] == 97 && K3[0] as int == 0x983e5152;
    case 25 => assert P3[1] == 101 && K3[1] as int == 0xa831c66d;
    case 26 => assert P3[2] == 103 && K3[2] as int == 0xb00327c8;
    case 27 => assert P3[3] == 107 && K3[3] as int == 0xbf597fc7;
    case 28 => assert P3[4] == 109 && K3[4] as int == 0xc6e00bf3;
    case 29 => assert P3[5] == 113 && K3[5] as int == 0xd5a79147;
    case 30 => assert P3[6] == 127 && K3[6] as int == 0x06ca6351;
    case _ => assert P3[7] == 131 && K3[7] as int == 0x14292967;
  }

  lemma CubeRoots4()
    ensures IsCubeRoot(137, 5, 0x27b70a85)
    ensures IsCubeRoot(139, 5, 0x2e1b2138)
    ensures IsCubeRoot(149, 5, 0x4d2c6dfc)
    ensures IsCubeRoot(151, 5, 0x53380d13)
    ensures IsCubeRoot(157, 5, 0x650a7354)
    ensures IsCubeRoot(163, 5, 0x766a0abb)
    ensures IsCubeRoot(167, 5, 0x81c2c92e)
    ensures IsCubeRoot(173, 5, 0x92722c85)
  {
  }

  lemma ConstantsOfRow4(i: nat)
    requires 32 <= i < 40
    ensures CubeRootBits(PRIMES[i], K[i] as int)
  {
    hide IsCubeRoot;
    CubeRoots4();
    assert PRIMES[i] == P4[i - 32] && K[i] == K4[i - 32];
    match i
    case 32 => assert P4[0] == 137 && K4[0] as int == 0x27b70a85;
    case 33 => assert P4[1] == 139 && K4[1] as int == 0x2e1b2138;
    case 34 => assert P4[2] == 149 && K4[2] as int == 0x4d2c6dfc;
    case 35 => assert P4[3] == 151 && K4[3] as int == 0x53380d13;
    case 36 => assert P4[4] == 157 && K4[4] as int == 0x650a7354;
    case 37 => assert P4[5] == 163 && K4[5] as int == 0x766a0abb;
    case 38 => assert P4[6] == 167 && K4[6] as int == 0x81c2c92e;
    case _ => assert P4[7] == 173 && K4[7] as int == 0x92722c85;
  }

  lemma CubeRoots5()
    ensures IsCubeRoot(179, 5, 0xa2bfe8a1)
    ensures IsCubeRoot(181, 5, 0xa81a664b)
    ensures IsCubeRoot(191, 5, 0xc24b8b70)
    ensures IsCubeRoot(193, 5, 0xc76c51a3)
    ensures IsCubeRoot(197, 5, 0xd192e819)
    ensures IsCubeRoot(199, 5, 0xd6990624)
    ensures IsCubeRoot(211, 5, 0xf40e3585)
    ensures IsCubeRoot(223, 6, 0x106aa070)
  {
  }

  lemma ConstantsOfRow5(i: nat)
    requires 40 <= i < 48
    ensures CubeRootBits(PRIMES[i], K[i] as int)
  {
    hide IsCubeRoot;
    CubeRoots5();
    assert PRIMES[i] == P5[i - 40] && K[i] == K5[i - 40];
    match i
    case 40 => assert P5[0] == 179 && K5[0] as int == 0xa2bfe8a1;
    case 41 => assert P5[1] == 181 && K5[1] as int == 0xa81a664b;
    case 42 => assert P5[2] == 191 && K5[2] as int == 0xc24b8b70;
    case 43 => assert P5[3] == 193 && K5[3] as int == 0xc76c51a3;
    case 44 => assert P5[4] == 197 && K5[4] as int == 0xd192e819;
    case 45 => assert P5[5] == 199 && K5[5] as int == 0xd6990624;
    case 46 => assert P5[6] == 211 && K5[6] as int == 0xf40e3585;
    case _ => assert P5[7] == 223 && K5[7] as int == 0x106aa070;
  }

  lemma CubeRoots6()
    ensures IsCubeRoot(227, 6, 0x19a4c116)
    ensures IsCubeRoot(229, 6, 0x1e376c08)
    ensures IsCubeRoot(233, 6, 0x2748774c)
    ensures IsCubeRoot(239, 6, 0x34b0bcb5)
    ensures IsCubeRoot(241, 6, 0x391c0cb3)
    ensures IsCubeRoot(251, 6, 0x4ed8aa4a)
    ensures IsCubeRoot(257, 6, 0x5b9cca4f)
    ensures IsCubeRoot(263, 6, 0x682e6ff3)
  {
  }

  lemma ConstantsOfRow6(i: nat)
    requires 48 <= i < 56
    ensures CubeRootBits(PRIMES[i], K[i] as int)
  {
    hide IsCubeRoot;
    CubeRoots6();
    assert PRIMES[i] == P6[i - 48] && K[i] == K6[i - 48];
    match i
    case 48 => assert P6[0] == 227 && K6[0] as int == 0x19a4c116;
    case 49 => assert P6[1] == 229 && K6[1] as int == 0x1e376c08;
    case 50 => assert P6[2] == 233 && K6[2] as int == 0x2748774c;
    case 51 => assert P6[3] == 239 && K6[3] as int == 0x34b0bcb5;
    case 52 => assert P6[4] == 241 && K6[4] as int == 0x391c0cb3;
    case 53 => assert P6[5] == 251 && K6[5] as int == 0x4ed8aa4a;
    case 54 => assert P6[6] == 257 && K6[6] as int == 0x5b9cca4f;
    case _ => assert P6[7] == 263 && K6[7] as int == 0x682e6ff3;
  }

  lemma CubeRoots7()
    ensures IsCubeRoot(269, 6, 0x748f82ee)
    ensures IsCubeRoot(271, 6, 0x78a5636f)
    ensures IsCubeRoot(277, 6, 0x84c87814)
    ensures IsCubeRoot(281, 6, 0x8cc70208)
    ensures IsCubeRoot(283, 6, 0x90befffa)
    ensures IsCubeRoot(293, 6, 0xa4506ceb)
    ensures IsCubeRoot(307, 6, 0xbef9a3f7)
    ensures IsCubeRoot(311, 6, 0xc67178f2)
  {
  }

  lemma ConstantsOfRow7(i: nat)
    requires 56 <= i < 64
    ensures CubeRootBits(PRIMES[i], K[i] as int)
  {
    hide IsCubeRoot;
    CubeRoots7();
    assert PRIMES[i] == P7[i - 56] && K[i] == K7[i - 56];
    match i
    case 56 => assert P7[0] == 269 && K7[0] as int == 0x748f82ee;
    case 57 => assert P7[1] == 271 && K7[1] as int == 0x78a5636f;
    case 58 => assert P7[2] == 277 && K7[2] as int == 0x84c87814;
    case 59 => assert P7[3] == 281 && K7[3] as int == 0x8cc70208;
    case 60 => assert P7[4] == 283 && K7[4] as int == 0x90befffa;
    case 61 => assert P7[5] == 293 && K7[5] as int == 0xa4506ceb;
    case 62 => assert P7[6] == 307 && K7[6] as int == 0xbef9a3f7;
    case _ => assert P7[7] == 311 && K7[7] as int == 0xc67178f2;
  }

  /** Section 4.2.2: the round constants are the first 32 bits of the fractional parts of those cube roots. */
  lemma ConstantsAreCubeRoots(i: nat)
    requires i < 64
    ensures |K| == |PRIMES| == 64 && CubeRootBits(PRIMES[i], K[i] as int)
  {
    hide CubeRootBits;
    if i < 8 {
      ConstantsOfRow0(i);
    } else if i < 16 {
      ConstantsOfRow1(i);
    } else if i < 24 {
      ConstantsOfRow2(i);
    } else if i < 32 {
      ConstantsOfRow3(i);
    } else if i < 40 {
      ConstantsOfRow4(i);
    } else if i < 48 {
      ConstantsOfRow5(i);
    } else if i < 56 {
      ConstantsOfRow6(i);
    } else {
      ConstantsOfRow7(i);
    }
  }

  lemma SquareRoots()
    ensures IsSquareRoot(2, 1, 0x6a09e667)
    ensures IsSquareRoot(3, 1, 0xbb67ae85)
    ensures IsSquareRoot(5, 2, 0x3c6ef372)
    ensures IsSquareRoot(7, 2, 0xa54ff53a)
    ensures IsSquareRoot(11, 3, 0x510e527f)
    ensures IsSquareRoot(13, 3, 0x9b05688c)
    ensures IsSquareRoot(17, 4, 0x1f83d9ab)
    ensures IsSquareRoot(19, 4, 0x5be0cd19)
  {
  }

  /** Section 5.3.3: the initial hash value is the first 32 bits of the fractional parts of the first square roots. */
  lemma InitialHashIsSquareRoots()
    ensures var v := InitialHash();
      && SquareRootBits(P0[0], v.a as int) && SquareRootBits(P0[1], v.b as int)
      && SquareRootBits(P0[2], v.c as int) && SquareRootBits(P0[3], v.d as int)
      && SquareRootBits(P0[4], v.e as int) && SquareRootBits(P0[5], v.f as int)
      && SquareRootBits(P0[6], v.g as int) && SquareRootBits(P0[7], v.h as int)
    ensures PRIMES[..8] == P0
  {
    hide IsSquareRoot;
    SquareRoots();
  }
}
