/** The round structure of AES-128 (FIPS 197, sections 5.1 and 5.3) over an arbitrary carrier of bytes, so
    that the algebra of rounds is proved once without looking inside a byte. */
module Rijndael {
  import opened GaloisField
  import BlockCipher

  /** One column of the state, or one word of the key schedule. */
  datatype Column<T> = Column(r0: T, r1: T, r2: T, r3: T)

  datatype State<T> = State(c0: Column<T>, c1: Column<T>, c2: Column<T>, c3: Column<T>)

  /** What the rounds need of bytes: sums, doubling, and the substitution with its inverse. */
  datatype Algebra<!T> = Algebra(space: Space<T>, sub: T -> T, invSub: T -> T)

  function Plus<T>(g: Algebra<T>, a: T, b: T): T {
    g.space.plus(a, b)
  }

  function Twice<T>(g: Algebra<T>, a: T): T {
    g.space.twice(a)
  }

  function Four<T>(g: Algebra<T>, a: T): T {
    Twice(g, Twice(g, a))
  }

  function Eight<T>(g: Algebra<T>, a: T): T {
    Twice(g, Four(g, a))
  }

  // The constant multiples of MixColumns and its inverse.
  function Three<T>(g: Algebra<T>, a: T): T { Plus(g, Twice(g, a), a) }
  function Nine<T>(g: Algebra<T>, a: T): T { Plus(g, Eight(g, a), a) }
  function Eleven<T>(g: Algebra<T>, a: T): T { Plus(g, Nine(g, a), Twice(g, a)) }
  function Thirteen<T>(g: Algebra<T>, a: T): T { Plus(g, Nine(g, a), Four(g, a)) }
  function Fourteen<T>(g: Algebra<T>, a: T): T { Plus(g, Plus(g, Eight(g, a), Four(g, a)), Twice(g, a)) }

  function Sum4<T>(g: Algebra<T>, a: T, b: T, c: T, d: T): T {
    Plus(g, Plus(g, a, b), Plus(g, c, d))
  }

  // ---- laws

  ghost predicate Cancels<T>(g: Algebra<T>, a: T, b: T) {
    Plus(g, Plus(g, a, b), b) == a
  }

  ghost predicate Rotates<T>(g: Algebra<T>, a: T, b: T, c: T, d: T) {
    Sum4(g, a, b, c, d) == Sum4(g, d, a, b, c)
  }

  ghost predicate Associates<T>(g: Algebra<T>, a: T, b: T, c: T, d: T) {
    Plus(g, Plus(g, Plus(g, a, b), c), d) == Sum4(g, a, b, c, d)
  }

  ghost predicate SubUndone<T>(g: Algebra<T>, a: T) {
    g.invSub(g.sub(a)) == a
  }

  /** The sums that make the product of the two mixing polynomials 1, coefficient by coefficient, on any
      a, a2, a4, a8, a16; they are used with the doublings of a. */
  ghost predicate Coefficient0<T>(g: Algebra<T>, a: T, a2: T, a4: T, a8: T, a16: T) {
    Sum4(g, Plus(g, Plus(g, a16, a8), a4), Plus(g, Plus(g, a8, a), a2),
         Plus(g, Plus(g, a8, a), a4), Plus(g, Plus(g, a16, a8), Plus(g, a2, a))) == a
  }

  ghost predicate Coefficient1<T>(g: Algebra<T>, a: T, a2: T, a4: T, a8: T, a16: T) {
    Sum4(g, Plus(g, Plus(g, Plus(g, a16, a8), Plus(g, a8, a4)), Plus(g, a4, a2)), Plus(g, Plus(g, a16, a2), a4),
         Plus(g, Plus(g, a8, a), a4), Plus(g, a8, a)) == g.space.zero
  }

  ghost predicate Coefficient2<T>(g: Algebra<T>, a: T, a2: T, a4: T, a8: T, a16: T) {
    Sum4(g, Plus(g, Plus(g, a8, a4), a2), Plus(g, Plus(g, Plus(g, a16, a8), Plus(g, a2, a)), Plus(g, a4, a2)),
         Plus(g, Plus(g, a16, a2), a8), Plus(g, a8, a)) == g.space.zero
  }

  ghost predicate Coefficient3<T>(g: Algebra<T>, a: T, a2: T, a4: T, a8: T, a16: T) {
    Sum4(g, Plus(g, Plus(g, a8, a4), a2), Plus(g, Plus(g, a8, a), a2),
         Plus(g, Plus(g, Plus(g, a16, a8), Plus(g, a2, a)), Plus(g, a8, a4)), Plus(g, a16, a2)) == g.space.zero
  }

  ghost predicate ZerosVanish<T>(g: Algebra<T>, a: T) {
    Sum4(g, a, g.space.zero, g.space.zero, g.space.zero) == a
  }

  ghost predicate Lawful<T(!new)>(g: Algebra<T>) {
    && Linear(g.space)
    && (forall a: T, b: T :: Cancels(g, a, b))
    && (forall a: T, b: T, c: T, d: T :: Rotates(g, a, b, c, d))
    && (forall a: T, b: T, c: T, d: T :: Associates(g, a, b, c, d))
    && (forall a: T :: ZerosVanish(g, a))
    && (forall a: T :: SubUndone(g, a))
    && (forall a: T, a2: T, a4: T, a8: T, a16: T :: Coefficient0(g, a, a2, a4, a8, a16))
    && (forall a: T, a2: T, a4: T, a8: T, a16: T :: Coefficient1(g, a, a2, a4, a8, a16))
    && (forall a: T, a2: T, a4: T, a8: T, a16: T :: Coefficient2(g, a, a2, a4, a8, a16))
    && (forall a: T, a2: T, a4: T, a8: T, a16: T :: Coefficient3(g, a, a2, a4, a8, a16))
  }

  // ---- linearity

  lemma TwicePlus<T(!new)>(g: Algebra<T>, a: T, b: T)
    requires Lawful(g)
    ensures Twice(g, Plus(g, a, b)) == Plus(g, Twice(g, a), Twice(g, b))
  {
    assert Doubles(g.space, a, b);
  }

  lemma Regroup<T(!new)>(g: Algebra<T>, a: T, b: T, c: T, d: T)
    requires Lawful(g)
    ensures Plus(g, Plus(g, a, b), Plus(g, c, d)) == Plus(g, Plus(g, a, c), Plus(g, b, d))
  {
    assert Regroups(g.space, a, b, c, d);
  }

  lemma MultiplesPlus<T(!new)>(g: Algebra<T>, a: T, b: T)
    requires Lawful(g)
    ensures Nine(g, Plus(g, a, b)) == Plus(g, Nine(g, a), Nine(g, b))
    ensures Eleven(g, Plus(g, a, b)) == Plus(g, Eleven(g, a), Eleven(g, b))
    ensures Thirteen(g, Plus(g, a, b)) == Plus(g, Thirteen(g, a), Thirteen(g, b))
    ensures Fourteen(g, Plus(g, a, b)) == Plus(g, Fourteen(g, a), Fourteen(g, b))
  {
    TwicePlus(g, a, b);
    TwicePlus(g, Twice(g, a), Twice(g, b));
    TwicePlus(g, Four(g, a), Four(g, b));
    Regroup(g, Eight(g, a), Eight(g, b), a, b);
    Regroup(g, Nine(g, a), Nine(g, b), Twice(g, a), Twice(g, b));
    Regroup(g, Nine(g, a), Nine(g, b), Four(g, a), Four(g, b));
    Regroup(g, Eight(g, a), Eight(g, b), Four(g, a), Four(g, b));
    Regroup(g, Plus(g, Eight(g, a), Four(g, a)), Plus(g, Eight(g, b), Four(g, b)), Twice(g, a), Twice(g, b));
  }

  lemma MultiplesSum4<T(!new)>(g: Algebra<T>, a: T, b: T, c: T, d: T)
    requires Lawful(g)
    ensures Nine(g, Sum4(g, a, b, c, d)) == Sum4(g, Nine(g, a), Nine(g, b), Nine(g, c), Nine(g, d))
    ensures Eleven(g, Sum4(g, a, b, c, d)) == Sum4(g, Eleven(g, a), Eleven(g, b), Eleven(g, c), Eleven(g, d))
    ensures Thirteen(g, Sum4(g, a, b, c, d))
            == Sum4(g, Thirteen(g, a), Thirteen(g, b), Thirteen(g, c), Thirteen(g, d))
    ensures Fourteen(g, Sum4(g, a, b, c, d))
            == Sum4(g, Fourteen(g, a), Fourteen(g, b), Fourteen(g, c), Fourteen(g, d))
  {
    MultiplesPlus(g, a, b);
    MultiplesPlus(g, c, d);
    MultiplesPlus(g, Plus(g, a, b), Plus(g, c, d));
  }

  lemma Sum4Plus<T(!new)>(g: Algebra<T>, a: T, b: T, c: T, d: T, a': T, b': T, c': T, d': T)
    requires Lawful(g)
    ensures Sum4(g, Plus(g, a, a'), Plus(g, b, b'), Plus(g, c, c'), Plus(g, d, d'))
            == Plus(g, Sum4(g, a, b, c, d), Sum4(g, a', b', c', d'))
  {
    Regroup(g, a, a', b, b');
    Regroup(g, c, c', d, d');
    Regroup(g, Plus(g, a, b), Plus(g, a', b'), Plus(g, c, d), Plus(g, c', d'));
  }

  /** Adding up a four by four table by rows or by columns gives the same sum. */
  lemma Transpose<T(!new)>(g: Algebra<T>, x: Column<T>, y: Column<T>, z: Column<T>, w: Column<T>)
    requires Lawful(g)
    ensures Sum4(g, Sum4(g, x.r0, x.r1, x.r2, x.r3), Sum4(g, y.r0, y.r1, y.r2, y.r3),
                 Sum4(g, z.r0, z.r1, z.r2, z.r3), Sum4(g, w.r0, w.r1, w.r2, w.r3))
            == Sum4(g, Sum4(g, x.r0, y.r0, z.r0, w.r0), Sum4(g, x.r1, y.r1, z.r1, w.r1),
                    Sum4(g, x.r2, y.r2, z.r2, w.r2), Sum4(g, x.r3, y.r3, z.r3, w.r3))
  {
    Sum4Plus(g, Plus(g, x.r0, x.r1), Plus(g, y.r0, y.r1), Plus(g, z.r0, z.r1), Plus(g, w.r0, w.r1),
             Plus(g, x.r2, x.r3), Plus(g, y.r2, y.r3), Plus(g, z.r2, z.r3), Plus(g, w.r2, w.r3));
    Sum4Plus(g, x.r0, y.r0, z.r0, w.r0, x.r1, y.r1, z.r1, w.r1);
    Sum4Plus(g, x.r2, y.r2, z.r2, w.r2, x.r3, y.r3, z.r3, w.r3);
  }

  // ---- the transformations

  function AddColumns<T>(g: Algebra<T>, a: Column<T>, b: Column<T>): Column<T> {
    Column(Plus(g, a.r0, b.r0), Plus(g, a.r1, b.r1), Plus(g, a.r2, b.r2), Plus(g, a.r3, b.r3))
  }

  /** AddRoundKey, section 5.1.4. */
  function Add<T>(g: Algebra<T>, a: State<T>, b: State<T>): State<T> {
    State(AddColumns(g, a.c0, b.c0), AddColumns(g, a.c1, b.c1),
          AddColumns(g, a.c2, b.c2), AddColumns(g, a.c3, b.c3))
  }

  function SubColumn<T>(sub: T -> T, c: Column<T>): Column<T> {
    Column(sub(c.r0), sub(c.r1), sub(c.r2), sub(c.r3))
  }

  /** SubBytes and InvSubBytes, sections 5.1.1 and 5.3.2, for the given substitution. */
  function SubBytes<T>(sub: T -> T, s: State<T>): State<T> {
    State(SubColumn(sub, s.c0), SubColumn(sub, s.c1), SubColumn(sub, s.c2), SubColumn(sub, s.c3))
  }

  function Diagonal<T>(a: Column<T>, b: Column<T>, c: Column<T>, d: Column<T>): Column<T> {
    Column(a.r0, b.r1, c.r2, d.r3)
  }

  /** Section 5.1.2. */
  function ShiftRows<T>(s: State<T>): State<T> {
    State(Diagonal(s.c0, s.c1, s.c2, s.c3), Diagonal(s.c1, s.c2, s.c3, s.c0),
          Diagonal(s.c2, s.c3, s.c0, s.c1), Diagonal(s.c3, s.c0, s.c1, s.c2))
  }

  /** Section 5.3.1. */
  function InvShiftRows<T>(s: State<T>): State<T> {
    State(Diagonal(s.c0, s.c3, s.c2, s.c1), Diagonal(s.c1, s.c0, s.c3, s.c2),
          Diagonal(s.c2, s.c1, s.c0, s.c3), Diagonal(s.c3, s.c2, s.c1, s.c0))
  }

  function MixRow<T>(g: Algebra<T>, a: T, b: T, c: T, d: T): T {
    Sum4(g, Twice(g, a), Three(g, b), c, d)
  }

  function InvMixRow<T>(g: Algebra<T>, a: T, b: T, c: T, d: T): T {
    Sum4(g, Fourteen(g, a), Eleven(g, b), Thirteen(g, c), Nine(g, d))
  }

  /** One column of MixColumns, section 5.1.3: row i starts its coefficients {02} {03} {01} {01} at byte i. */
  function MixColumn<T>(g: Algebra<T>, c: Column<T>): Column<T> {
    Column(MixRow(g, c.r0, c.r1, c.r2, c.r3), MixRow(g, c.r1, c.r2, c.r3, c.r0),
           MixRow(g, c.r2, c.r3, c.r0, c.r1), MixRow(g, c.r3, c.r0, c.r1, c.r2))
  }

  /** One column of InvMixColumns, section 5.3.3, with coefficients {0e} {0b} {0d} {09}. */
  function InvMixColumn<T>(g: Algebra<T>, c: Column<T>): Column<T> {
    Column(InvMixRow(g, c.r0, c.r1, c.r2, c.r3), InvMixRow(g, c.r1, c.r2, c.r3, c.r0),
           InvMixRow(g, c.r2, c.r3, c.r0, c.r1), InvMixRow(g, c.r3, c.r0, c.r1, c.r2))
  }

  function MixColumns<T>(g: Algebra<T>, s: State<T>): State<T> {
    State(MixColumn(g, s.c0), MixColumn(g, s.c1), MixColumn(g, s.c2), MixColumn(g, s.c3))
  }

  function InvMixColumns<T>(g: Algebra<T>, s: State<T>): State<T> {
    State(InvMixColumn(g, s.c0), InvMixColumn(g, s.c1), InvMixColumn(g, s.c2), InvMixColumn(g, s.c3))
  }

  // ---- each transformation is undone by its inverse

  lemma AddColumnsCancels<T(!new)>(g: Algebra<T>, a: Column<T>, b: Column<T>)
    requires Lawful(g)
    ensures AddColumns(g, AddColumns(g, a, b), b) == a
  {
    assert Cancels(g, a.r0, b.r0) && Cancels(g, a.r1, b.r1) && Cancels(g, a.r2, b.r2) && Cancels(g, a.r3, b.r3);
  }

  lemma AddCancels<T(!new)>(g: Algebra<T>, a: State<T>, b: State<T>)
    requires Lawful(g)
    ensures Add(g, Add(g, a, b), b) == a
  {
    AddColumnsCancels(g, a.c0, b.c0);
    AddColumnsCancels(g, a.c1, b.c1);
    AddColumnsCancels(g, a.c2, b.c2);
    AddColumnsCancels(g, a.c3, b.c3);
  }

  lemma SubColumnUndone<T(!new)>(g: Algebra<T>, c: Column<T>)
    requires Lawful(g)
    ensures SubColumn(g.invSub, SubColumn(g.sub, c)) == c
  {
    assert SubUndone(g, c.r0) && SubUndone(g, c.r1) && SubUndone(g, c.r2) && SubUndone(g, c.r3);
  }

  /** InvSubBytes after InvShiftRows undoes ShiftRows after SubBytes. */
  lemma SubShiftUndone<T(!new)>(g: Algebra<T>, s: State<T>)
    requires Lawful(g)
    ensures SubBytes(g.invSub, InvShiftRows(ShiftRows(SubBytes(g.sub, s)))) == s
  {
    assert InvShiftRows(ShiftRows(SubBytes(g.sub, s))) == SubBytes(g.sub, s);
    SubColumnUndone(g, s.c0);
    SubColumnUndone(g, s.c1);
    SubColumnUndone(g, s.c2);
    SubColumnUndone(g, s.c3);
  }

  /** The product of the mixing polynomials is 1: what the byte a contributes to each row. */
  lemma MixByteUndone<T(!new)>(g: Algebra<T>, a: T)
    requires Lawful(g)
    ensures Sum4(g, Fourteen(g, Twice(g, a)), Eleven(g, a), Thirteen(g, a), Nine(g, Three(g, a))) == a
    ensures Sum4(g, Fourteen(g, Three(g, a)), Eleven(g, Twice(g, a)), Thirteen(g, a), Nine(g, a)) == g.space.zero
    ensures Sum4(g, Fourteen(g, a), Eleven(g, Three(g, a)), Thirteen(g, Twice(g, a)), Nine(g, a)) == g.space.zero
    ensures Sum4(g, Fourteen(g, a), Eleven(g, a), Thirteen(g, Three(g, a)), Nine(g, Twice(g, a))) == g.space.zero
  {
    var a2 := Twice(g, a);
    var a4 := Twice(g, a2);
    var a8 := Twice(g, a4);
    var a16 := Twice(g, a8);
    TwicePlus(g, a2, a);
    TwicePlus(g, a4, a2);
    TwicePlus(g, a8, a4);
    assert Coefficient0(g, a, a2, a4, a8, a16);
    assert Coefficient1(g, a, a2, a4, a8, a16);
    assert Coefficient2(g, a, a2, a4, a8, a16);
    assert Coefficient3(g, a, a2, a4, a8, a16);
  }

  lemma MixRowUndone<T(!new)>(g: Algebra<T>, a: T, b: T, c: T, d: T)
    requires Lawful(g)
    ensures InvMixRow(g, MixRow(g, a, b, c, d), MixRow(g, b, c, d, a), MixRow(g, c, d, a, b), MixRow(g, d, a, b, c)) == a
  {
    var a2, a3 := Twice(g, a), Three(g, a);
    var b2, b3 := Twice(g, b), Three(g, b);
    var c2, c3 := Twice(g, c), Three(g, c);
    var d2, d3 := Twice(g, d), Three(g, d);
    // the four mixed rows, each with its terms in the order of a, b, c, d
    assert Rotates(g, b2, c3, d, a);
    assert Rotates(g, c2, d3, a, b) && Rotates(g, b, c2, d3, a);
    assert Rotates(g, a3, b, c, d2);
    MultiplesSum4(g, a2, b3, c, d);
    MultiplesSum4(g, a, b2, c3, d);
    MultiplesSum4(g, a, b, c2, d3);
    MultiplesSum4(g, a3, b, c, d2);
    Transpose(g, Column(Fourteen(g, a2), Fourteen(g, b3), Fourteen(g, c), Fourteen(g, d)),
              Column(Eleven(g, a), Eleven(g, b2), Eleven(g, c3), Eleven(g, d)),
              Column(Thirteen(g, a), Thirteen(g, b), Thirteen(g, c2), Thirteen(g, d3)),
              Column(Nine(g, a3), Nine(g, b), Nine(g, c), Nine(g, d2)));
    MixByteUndone(g, a);
    MixByteUndone(g, b);
    MixByteUndone(g, c);
    MixByteUndone(g, d);
    assert ZerosVanish(g, a);
  }

  lemma MixColumnUndone<T(!new)>(g: Algebra<T>, c: Column<T>)
    requires Lawful(g)
    ensures InvMixColumn(g, MixColumn(g, c)) == c
  {
    MixRowUndone(g, c.r0, c.r1, c.r2, c.r3);
    MixRowUndone(g, c.r1, c.r2, c.r3, c.r0);
    MixRowUndone(g, c.r2, c.r3, c.r0, c.r1);
    MixRowUndone(g, c.r3, c.r0, c.r1, c.r2);
  }

  lemma MixColumnsUndone<T(!new)>(g: Algebra<T>, s: State<T>)
    requires Lawful(g)
    ensures InvMixColumns(g, MixColumns(g, s)) == s
  {
    MixColumnUndone(g, s.c0);
    MixColumnUndone(g, s.c1);
    MixColumnUndone(g, s.c2);
    MixColumnUndone(g, s.c3);
  }

  lemma InvMixRowPlus<T(!new)>(g: Algebra<T>, a: T, b: T, c: T, d: T, a': T, b': T, c': T, d': T)
    requires Lawful(g)
    ensures InvMixRow(g, Plus(g, a, a'), Plus(g, b, b'), Plus(g, c, c'), Plus(g, d, d'))
            == Plus(g, InvMixRow(g, a, b, c, d), InvMixRow(g, a', b', c', d'))
  {
    MultiplesPlus(g, a, a');
    MultiplesPlus(g, b, b');
    MultiplesPlus(g, c, c');
    MultiplesPlus(g, d, d');
    Sum4Plus(g, Fourteen(g, a), Eleven(g, b), Thirteen(g, c), Nine(g, d),
             Fourteen(g, a'), Eleven(g, b'), Thirteen(g, c'), Nine(g, d'));
  }

  lemma InvMixColumnAdd<T(!new)>(g: Algebra<T>, c: Column<T>, d: Column<T>)
    requires Lawful(g)
    ensures InvMixColumn(g, AddColumns(g, c, d)) == AddColumns(g, InvMixColumn(g, c), InvMixColumn(g, d))
  {
    InvMixRowPlus(g, c.r0, c.r1, c.r2, c.r3, d.r0, d.r1, d.r2, d.r3);
    InvMixRowPlus(g, c.r1, c.r2, c.r3, c.r0, d.r1, d.r2, d.r3, d.r0);
    InvMixRowPlus(g, c.r2, c.r3, c.r0, c.r1, d.r2, d.r3, d.r0, d.r1);
    InvMixRowPlus(g, c.r3, c.r0, c.r1, c.r2, d.r3, d.r0, d.r1, d.r2);
  }

  /** InvMixColumns distributes over AddRoundKey: the fact behind the equivalent inverse cipher. */
  lemma InvMixColumnsAdd<T(!new)>(g: Algebra<T>, s: State<T>, k: State<T>)
    requires Lawful(g)
    ensures InvMixColumns(g, Add(g, s, k)) == Add(g, InvMixColumns(g, s), InvMixColumns(g, k))
  {
    InvMixColumnAdd(g, s.c0, k.c0);
    InvMixColumnAdd(g, s.c1, k.c1);
    InvMixColumnAdd(g, s.c2, k.c2);
    InvMixColumnAdd(g, s.c3, k.c3);
  }

  // ---- inverse mixing byte by byte

  // What a byte of each row contributes to its inverse-mixed column.

  function Share0<T>(g: Algebra<T>, x: T): Column<T> {
    Column(Fourteen(g, x), Nine(g, x), Thirteen(g, x), Eleven(g, x))
  }

  function Share1<T>(g: Algebra<T>, x: T): Column<T> {
    Column(Eleven(g, x), Fourteen(g, x), Nine(g, x), Thirteen(g, x))
  }

  function Share2<T>(g: Algebra<T>, x: T): Column<T> {
    Column(Thirteen(g, x), Eleven(g, x), Fourteen(g, x), Nine(g, x))
  }

  function Share3<T>(g: Algebra<T>, x: T): Column<T> {
    Column(Nine(g, x), Thirteen(g, x), Eleven(g, x), Fourteen(g, x))
  }

  lemma RowShares<T(!new)>(g: Algebra<T>, a: T, b: T, c: T, d: T)
    requires Lawful(g)
    ensures Plus(g, Plus(g, Plus(g, a, b), c), d) == Sum4(g, a, b, c, d)
    ensures Plus(g, Plus(g, Plus(g, a, b), c), d) == Sum4(g, b, c, d, a)
    ensures Plus(g, Plus(g, Plus(g, a, b), c), d) == Sum4(g, c, d, a, b)
    ensures Plus(g, Plus(g, Plus(g, a, b), c), d) == Sum4(g, d, a, b, c)
  {
    assert Associates(g, a, b, c, d);
    assert Rotates(g, a, b, c, d) && Rotates(g, d, a, b, c) && Rotates(g, c, d, a, b);
  }

  lemma SharesAddUp<T(!new)>(g: Algebra<T>, c: Column<T>)
    requires Lawful(g)
    ensures AddColumns(g, AddColumns(g, AddColumns(g, Share0(g, c.r0), Share1(g, c.r1)), Share2(g, c.r2)), Share3(g, c.r3))
            == InvMixColumn(g, c)
  {
    RowShares(g, Fourteen(g, c.r0), Eleven(g, c.r1), Thirteen(g, c.r2), Nine(g, c.r3));
    RowShares(g, Nine(g, c.r0), Fourteen(g, c.r1), Eleven(g, c.r2), Thirteen(g, c.r3));
    RowShares(g, Thirteen(g, c.r0), Nine(g, c.r1), Fourteen(g, c.r2), Eleven(g, c.r3));
    RowShares(g, Eleven(g, c.r0), Thirteen(g, c.r1), Nine(g, c.r2), Fourteen(g, c.r3));
  }

  /** Packing a column into a word, where adding words adds columns. */
  ghost predicate PackAdds<T, W>(g: Algebra<T>, pack: Column<T> -> W, xor: (W, W) -> W, a: Column<T>, b: Column<T>) {
    xor(pack(a), pack(b)) == pack(AddColumns(g, a, b))
  }

  lemma ShareWordsAddUp<T(!new), W>(g: Algebra<T>, pack: Column<T> -> W, xor: (W, W) -> W, c: Column<T>)
    requires Lawful(g)
    requires forall a: Column<T>, b: Column<T> :: PackAdds(g, pack, xor, a, b)
    ensures xor(xor(xor(pack(Share0(g, c.r0)), pack(Share1(g, c.r1))), pack(Share2(g, c.r2))), pack(Share3(g, c.r3)))
            == pack(InvMixColumn(g, c))
  {
    var s := AddColumns(g, Share0(g, c.r0), Share1(g, c.r1));
    assert PackAdds(g, pack, xor, Share0(g, c.r0), Share1(g, c.r1));
    assert PackAdds(g, pack, xor, s, Share2(g, c.r2));
    assert PackAdds(g, pack, xor, AddColumns(g, s, Share2(g, c.r2)), Share3(g, c.r3));
    SharesAddUp(g, c);
  }

  // ---- the steps of AES

  function Scramble<T>(g: Algebra<T>, s: State<T>): State<T> {
    ShiftRows(SubBytes(g.sub, s))
  }

  function Unscramble<T>(g: Algebra<T>, s: State<T>): State<T> {
    SubBytes(g.invSub, InvShiftRows(s))
  }

  function Aes<T>(g: Algebra<T>): BlockCipher.Steps<State<T>> {
    BlockCipher.Steps((s: State<T>, k: State<T>) => Add(g, s, k), (s: State<T>) => Scramble(g, s),
                      (s: State<T>) => Unscramble(g, s), (s: State<T>) => MixColumns(g, s),
                      (s: State<T>) => InvMixColumns(g, s))
  }

  lemma AesLawful<T(!new)>(g: Algebra<T>)
    requires Lawful(g)
    ensures BlockCipher.Lawful(Aes(g))
  {
    forall s: State<T>, k: State<T>
      ensures BlockCipher.Cancels(Aes(g), s, k)
    {
      AddCancels(g, s, k);
    }
    forall s: State<T>
      ensures BlockCipher.Undone(Aes(g), s)
    {
      SubShiftUndone(g, s);
      MixColumnsUndone(g, s);
    }
    forall s: State<T>, k: State<T>
      ensures BlockCipher.Distributes(Aes(g), s, k)
    {
      InvMixColumnsAdd(g, s, k);
    }
  }
}
