# Verified model of the bundled cryptography

The program ships its own copies of libsecp256k1, of a bit-sliced AES, of Blake2b and of SHA-256.
This project models their algorithms in Dafny and proves that each of the fast forms computes the
simple thing it stands for. The build follows `crypto_tools/secp256k1/basic-config.h`: field
elements of ten 26-bit limbs, scalars of eight 32-bit words, no endomorphism, windows of 5 bits
for points and 16 bits for the generator.

The model has four layers, and code that changes things in place is a method with loops,
arrays or fields, proved against a function or predicate that says what it is for.

1. **Scalar multiplication in a commutative group.** `Groups` has the group and the multiples
   and linear combinations of its elements; everything here is proved equal to one of those.
   `Recoding` and `RecodingConst` hold the three signed-digit forms of a scalar, `OddTables` the
   tables that their digits index. `Strauss`, `Pippenger` and `EcmultConst` are the three ways to
   multiply, `EcmultGen` the blinded comb for the generator. `ScratchSpace`, `BatchSizes` and
   `EcmultMulti` divide many points into batches over a frame allocator. `Ecdsa` signs and
   verifies on top, and `Der` reads and prints signatures.
2. **Coordinates over a field of any odd characteristic.** `Coordinates` and `Curve` prove the
   formulas for Jacobian coordinates against the chord and tangent rule in every case,
   `CurveTables` and `CurveMultiples` the conversions and tables that get by with one inversion,
   including the table that stores y and a ratio and later recovers x. `CurveEcmult` puts them
   together: Strauss' method and the constant-time multiplication on coordinates, which run over
   the common z of their tables and take it out once at the end.
3. **Limbs and words with their bounds.** `Field10x26`, `FieldNormalize` and `FieldBytes` work
   modulo 2^256 - 0x1000003D1 (with the operators of `Bitwise` in the zero tests), `Accumulator`,
   `Scalar8x32`, `ScalarOps` and `ScalarBits` modulo the group order n; no accumulator overflows and no carry is lost. `Powers`, `FieldPowers` and
   `ScalarPowers` follow the exponents through the addition chains.
4. **Ciphers and hashes.** `AesWords` to `AesCipher` go from gates on 16-bit words to the cipher
   of FIPS 197 and its inverse, `AesKeySchedule` to the key expansion, and `AesVectors` proves
   two vectors of that standard. `Aes256`, `AesCbc` and `KeyTools` add chaining and padding. `Blake2b` and `Sha256` are the streaming interfaces over
   an arbitrary compression function.

`Numbers` and `Wrappers` are shared.

What the number theory has to supply is a hypothesis, written as a predicate that the theorems
require: `Groups.IsAbelian` (the laws of a commutative group), `OddTables.HasOrderN` (a point of
order n), `Curve.IsCurve` (the chord and tangent rule and the way points are told apart by their
coordinates), `Field.IsInverse` (field inversion, with zero going to zero), `Ecdsa.IsDomain` (the
characteristic is that of secp256k1, and nonzero scalars have inverses), `EcmultGen.IsSetting`
(the point `nums` is such that no entry of the comb table is infinite) and `Powers.Fermat` (the
little theorem of Fermat for a modulus). None of them says anything about the code.

Four observations about the code are stated as theorems or followed where a comment says
something else:

- `secp256k1_scratch_allocate_frame` grants an empty frame even when the padding of its objects
  alone is larger than what is left, because `secp256k1_scratch_max_allocation` then answers zero
  and zero is not more than that. From there on the remaining space wraps around.
  `ScratchSpace.FrameWithinBudget` says exactly when a granted frame stays within the size of the
  space; `ScratchSpace.EmptyFrameTaken` takes such a frame. `secp256k1_ecmult_strauss_batch` asks
  for an empty frame when it is called without points, which `secp256k1_ecmult_multi_var` never does.
- `secp256k1_ge_set_all_gej_var` returns early when all points are infinite and then leaves the
  infinity flags of its output as they were. The contract of `CurveTables.GeSetAllGejVar` says
  exactly which entries are right: all of them if some point is finite, and otherwise those
  flagged before the call; `CurveTables.FlagLeftClear` shows one that is not.
- `secp256k1_der_read_len` returns a `size_t` as an `int`. `Der.Parse` therefore accepts exactly the
  signatures whose body is shorter than 2^31 bytes, which includes all that are ever serialised.
- The comment above `secp256k1_wnaf_const` has the digits run up to `WNAF_SIZE(w) + 1`; the code
  writes the digits 0 to `WNAF_SIZE(w)`, and so does the model. The comment above
  `secp256k1_wnaf_fixed` is read the same way.

## Model

| member | source | states |
|---|---|---|
| Recoding.EcmultWnaf | crypto_tools/secp256k1/ecmult_impl.h:375-424 | for every window and every scalar that fits: no carry is left, the digits sum to a or a - n, each is zero or odd and below 2^(w-1) in size with at least w - 1 zeros between two, and the returned length ends at the last digit |
| Recoding.SignedBound | crypto_tools/secp256k1/ecmult_impl.h:389-392 | a or a - n, whichever has the sign the code chooses, is congruent to a and fits 255 bits, so 256 digits always suffice |
| Recoding.WnafDone | crypto_tools/secp256k1/ecmult_impl.h:394-420 | once all bits are consumed the digits written so far are the whole number, without a leftover carry |
| Recoding.WnafFixed | crypto_tools/secp256k1/ecmult_impl.h:684-744 | the fixed-size digits are zero or odd and below 2^w in size, and their weighted sum less the skew is exactly s; nothing else in the array changes |
| Recoding.FixedFold | crypto_tools/secp256k1/ecmult_impl.h:727-739 | folding a lone 1 or -1 into the digit below keeps the value and the digit bounds |
| Recoding.FixedDone | crypto_tools/secp256k1/ecmult_impl.h:703-716 | clearing the digits above the highest set bit loses nothing of the scalar |
| RecodingConst.WnafConst | crypto_tools/secp256k1/ecmult_const_impl.h:51-118 | all digits are odd and below 2^w in size, their weighted sum is q + skew or q + skew - n, and the rest of the scalar is zero after the loop, for every scalar including 0, 1, n - 2 and n - 1 |
| RecodingConst.AdjustedMeaning | crypto_tools/secp256k1/ecmult_const_impl.h:78-92 | the odd number that is recoded, with its sign, is congruent to the scalar plus the skew |
| RecodingConst.AdjustedFits | crypto_tools/secp256k1/ecmult_const_impl.h:95-116 | the digits of the full size have room for every adjusted scalar |
| RecodingConst.Adjust | crypto_tools/secp256k1/ecmult_const_impl.h:78-92 | conditional negation and skew bit, with the exception for n - 1, give that odd number |
| OddTables.OddMultiples | crypto_tools/secp256k1/ecmult_impl.h:80-113 | the table holds the odd multiples a, 3a, 5a, ... of the point |
| OddTables.TableGet | crypto_tools/secp256k1/ecmult_impl.h:273-295 | an odd digit within the window selects its multiple of the point, from inside the table |
| OddTables.TableGetConst | crypto_tools/secp256k1/ecmult_const_impl.h:16-36 | scanning the whole table selects the same multiple |
| OddTables.SmallMultiple | crypto_tools/secp256k1/ecmult_const_impl.h:190-200 | a point of order n has no vanishing multiple between -n and n, apart from 0 |
| EcmultConst.EcmultConst | crypto_tools/secp256k1/ecmult_const_impl.h:120-255 | returns q times the point for every scalar q of the given size; doublings and table additions never meet the point at infinity |
| EcmultConst.TailsPartial | crypto_tools/secp256k1/ecmult_const_impl.h:174-209 | every partial sum of the main loop keeps its sign, is not zero and is small enough to be doubled |
| EcmultConst.Correction | crypto_tools/secp256k1/ecmult_const_impl.h:213-254 | taking the skew, one or two times the point, out at the end gives q times the point |
| EcmultConst.MagnitudeFits | crypto_tools/secp256k1/ecmult_const_impl.h:51-118 | a scalar below the size bound fits the digits that the size asks for |
| EcmultConst.FullSize | crypto_tools/secp256k1/ecmult_const_impl.h:51-118 | every scalar is below the bound of the full size |
| Pippenger.PippengerWnaf | crypto_tools/secp256k1/ecmult_impl.h:763-838 | for any number of points and every bucket window from 1 to 12 the result is the sum of all scalars times their points, and every bucket index is in range |
| Pippenger.RecodeAll | crypto_tools/secp256k1/ecmult_impl.h:770-777 | dropping zero scalars and points at infinity loses nothing of the sum, and each kept scalar is recoded in its own row |
| Pippenger.Scatter | crypto_tools/secp256k1/ecmult_impl.h:787-813 | after one column is scattered the buckets, weighted 1, 3, 5, ..., hold the sum of the digits of the column times the points |
| Pippenger.Accumulate | crypto_tools/secp256k1/ecmult_impl.h:815-835 | the running sum with its deferred doubling shifts the accumulator and adds the weighted buckets |
| Pippenger.OddSum | crypto_tools/secp256k1/ecmult_impl.h:819-835 | the sum with weights 1, 3, 5, ... is the sum of all buckets plus twice the sum of the tails |
| Pippenger.WeightedAdd | crypto_tools/secp256k1/ecmult_impl.h:797-812 | adding a point to one bucket adds that odd multiple of it |
| Pippenger.TailsWhole | crypto_tools/secp256k1/ecmult_impl.h:784-836 | the digits of all columns together are the scalars |
| Strauss.StraussWnaf | crypto_tools/secp256k1/ecmult_impl.h:450-598 | returns the sum of all na times A plus ng times G, with every table lookup in range for both window sizes |
| Strauss.RecodeAll | crypto_tools/secp256k1/ecmult_impl.h:469-497 | the kept scalars are recoded and nothing of the sum is lost |
| Strauss.Recode | crypto_tools/secp256k1/ecmult_impl.h:490-494 | a recoding over 256 places, and no digit beyond its length |
| Strauss.BuildTables | crypto_tools/secp256k1/ecmult_impl.h:509-525 | each kept point gets its own table of odd multiples |
| Strauss.AddColumn | crypto_tools/secp256k1/ecmult_impl.h:582-587 | one column adds the digits of that place times the points |
| Strauss.RecodeGenerator | crypto_tools/secp256k1/ecmult_impl.h:549-554 | the scalar of the generator is recoded for its larger window, an absent one as zero |
| ScratchSpace.Scratch.MaxAllocationNow | crypto_tools/secp256k1/scratch_impl.h:35-45 | what is left of the space, less the padding of the objects, in wrapping 64-bit arithmetic |
| ScratchSpace.SumAppend | crypto_tools/secp256k1/scratch_impl.h:35-40 | what is taken is the sum over all frames |
| ScratchSpace.Scratch.AllocateFrame | crypto_tools/secp256k1/scratch_impl.h:47-63 | succeeds exactly when the size is available and memory is given, and then pushes one frame; otherwise nothing changes |
| ScratchSpace.Scratch.DeallocateFrame | crypto_tools/secp256k1/scratch_impl.h:65-69 | pops the newest frame |
| ScratchSpace.Scratch.Alloc | crypto_tools/secp256k1/scratch_impl.h:71-84 | in wrapping 64-bit arithmetic: succeeds exactly when the rounded size and the offset stay within the newest frame, at an aligned place behind all earlier objects |
| ScratchSpace.ObjectInside | crypto_tools/secp256k1/scratch_impl.h:71-84 | a granted object lies inside its frame exactly when neither its rounded size nor the new offset wraps around |
| ScratchSpace.FrameWithinBudget | crypto_tools/secp256k1/scratch_impl.h:35-63 | exactly when a granted frame stays within the size of the space: when it asks for something, or when the padding alone fits |
| ScratchSpace.EmptyFrameOverBudget | crypto_tools/secp256k1/scratch_impl.h:35-63 | an empty frame with six objects is granted in a space of 16 bytes, and afterwards almost everything counts as available |
| ScratchSpace.EmptyFrameTaken | crypto_tools/secp256k1/scratch_impl.h:35-63 | the same through the allocator: after the empty frame almost 2^64 bytes count as available |
| ScratchSpace.AvailableOverBudget | crypto_tools/secp256k1/scratch_impl.h:40-44 | once more than the size is taken the space left wraps around |
| ScratchSpace.ObjectsFit | crypto_tools/secp256k1/scratch_impl.h:71-84 | objects whose sizes fit the frame also fit with their alignment |
| BatchSizes.BucketWindowInverse | crypto_tools/secp256k1/ecmult_impl.h:844-896 | a window is chosen exactly for the numbers of points between the inverse of the window before and its own |
| BatchSizes.PippengerMaxPoints | crypto_tools/secp256k1/ecmult_impl.h:1051-1085 | every count up to the result fits the space and the next one does not |
| BatchSizes.WindowFits | crypto_tools/secp256k1/ecmult_impl.h:1061-1082 | within one window a count fits exactly when it is at most the quotient the code computes |
| BatchSizes.StraussMaxPoints | crypto_tools/secp256k1/ecmult_impl.h:673-675 | exactly the counts up to the result fit the space |
| BatchSizes.BatchSizeHelper | crypto_tools/secp256k1/ecmult_impl.h:1116-1132 | consecutive nonempty batches of nearly equal size, none above the maximum, cover all points; zero points allowed fails |
| EcmultMulti.Ecmult | crypto_tools/secp256k1/ecmult_impl.h:600-618 | na times A plus ng times G |
| EcmultMulti.MultiSimple | crypto_tools/secp256k1/ecmult_impl.h:1089-1112 | succeeds exactly when the callback delivers every point, with the sum over all of them and each index asked once, in order |
| EcmultMulti.StraussBatch | crypto_tools/secp256k1/ecmult_impl.h:629-671 | succeeds exactly when the frame fits, memory is given and the callback delivers; the frames are as before on every exit |
| EcmultMulti.PippengerBatch | crypto_tools/secp256k1/ecmult_impl.h:966-1044 | the same for the bucket method: every count that fits the space gets all its allocations |
| EcmultMulti.PippengerFrame | crypto_tools/secp256k1/ecmult_impl.h:956-999 | the objects the batch asks for add up to no more than the computed frame size |
| EcmultMulti.RunBatches | crypto_tools/secp256k1/ecmult_impl.h:1168-1178 | the batches together give the sum over all points, each index used once and G once |
| EcmultMulti.Combine | crypto_tools/secp256k1/ecmult_impl.h:1168-1177 | a batch behind the ones before adds its part of the sum, and G is in the first only |
| EcmultMulti.MultiVar | crypto_tools/secp256k1/ecmult_impl.h:1135-1179 | whatever path is taken the result is that of the simple method, frames are balanced, and the only failures are the callback, memory, and no room for a single point |
| EcmultMulti.ResultMeans | crypto_tools/secp256k1/ecmult_impl.h:1135-1179 | what a result is: every index asked once and in order, the sum over what the callback delivers, and the multiple of the generator if its scalar is given |
| EcmultGen.OffsetsCancel | crypto_tools/secp256k1/ecmult_gen_impl.h:60-79 | the 64 multiples of the offset point put into the table rows sum to zero |
| EcmultGen.Context.Build | crypto_tools/secp256k1/ecmult_gen_impl.h:21-92 | builds the comb table and leaves the context blinded; a second call changes nothing |
| EcmultGen.Context.Blind | crypto_tools/secp256k1/ecmult_gen_impl.h:159-208 | after re-blinding the initial point is again minus blind times G |
| EcmultGen.Context.Gen | crypto_tools/secp256k1/ecmult_gen_impl.h:124-156 | returns gn times G for every gn, whatever the blinding |
| EcmultGen.Context.CloneFrom | crypto_tools/secp256k1/ecmult_gen_impl.h:98-113 | a clone has its own table and the same blinding |
| EcmultGen.Context.Clear | crypto_tools/secp256k1/ecmult_gen_impl.h:115-122 | a cleared context is not built |
| EcmultGen.Unblind | crypto_tools/secp256k1/ecmult_gen_impl.h:124-156 | the 64 rows of the comb on gn + blind, added to the initial point, are gn times G |
| Ecdsa.Verify | crypto_tools/secp256k1/ecdsa_impl.h:201-269 | accepts exactly the nonzero r and s whose recomputed point is finite with x mod n equal to r, without inverting z |
| Ecdsa.ValidMeans | crypto_tools/secp256k1/ecdsa_impl.h:201-269 | a valid signature in one formula: (m / s) G + (r / s) Q is finite and its x modulo n is r |
| Ecdsa.Sign | crypto_tools/secp256k1/ecdsa_impl.h:271-311 | r is the x coordinate of the nonce times G, modulo n, s times the nonce or its negative is m + r d, s is low, every signature with nonzero r and s verifies for the matching key and message, and the recovery id gives back the nonce point |
| Ecdsa.Candidates | crypto_tools/secp256k1/ecdsa_impl.h:238-267 | x mod n is r exactly when x is r, or x is r + n and that is below p |
| Ecdsa.RecomputesNonce | crypto_tools/secp256k1/ecdsa_impl.h:214-218 | the point the verifier recomputes for such a signature is the nonce point |
| Ecdsa.NoncePoint | crypto_tools/secp256k1/ecdsa_impl.h:278-309 | up to sign, also after s was negated to be low |
| Der.ReadLen | crypto_tools/secp256k1/ecdsa_impl.h:49-97 | for input of any size: reads exactly the lengths in shortest form that leave room for their content, and returns them as an int; the largest size reads as a failure |
| Der.ParseInteger | crypto_tools/secp256k1/ecdsa_impl.h:99-143 | accepts exactly the integers in shortest form, and gives zero for negative or too large ones; what is left of the input has a length that is an int, as the caller has seen to |
| Der.IntegerScalar | crypto_tools/secp256k1/ecdsa_impl.h:122-140 | the number of the content octets, or zero when it is negative or not below n, whatever its length |
| Der.Parse | crypto_tools/secp256k1/ecdsa_impl.h:145-175 | for input of any size: accepts exactly the sequences of two such integers without anything behind them whose length is an int |
| Der.Serialize | crypto_tools/secp256k1/ecdsa_impl.h:177-199 | tells the size needed, and prints the two shortest integers when there is room |
| Der.Shorten | crypto_tools/secp256k1/ecdsa_impl.h:183-184 | dropping zeros while the sign bit stays clear gives the content octets of the number |
| Der.ParsesSerialized | crypto_tools/secp256k1/ecdsa_impl.h:145-199 | what is serialised parses, and to the same two numbers |
| Der.SerializesParsed | crypto_tools/secp256k1/ecdsa_impl.h:145-199 | an input that parses is byte for byte what the serialiser prints for its two numbers exactly when neither of them is flagged |
| Der.SignatureUnique | crypto_tools/secp256k1/ecdsa_impl.h:145-175 | an input is a signature in at most one way |
| Der.LengthUnique | crypto_tools/secp256k1/ecdsa_impl.h:49-97 | a place has at most one length |
| Der.LengthMeans | crypto_tools/secp256k1/ecdsa_impl.h:49-97 | one octet below 128, otherwise their number with the top bit set and the digits to base 256, the highest first and not zero |
| Der.SignatureMeans | crypto_tools/secp256k1/ecdsa_impl.h:145-175 | the tags, lengths and contents of a signature one after the other, the first nine bits of either content not all alike |
| Der.ScalarMeans | crypto_tools/secp256k1/ecdsa_impl.h:122-140 | zero for a negative number or one not below n, otherwise the number |
| Der.SerializedMeans | crypto_tools/secp256k1/ecdsa_impl.h:177-199 | the serialisation octet by octet: both contents are the shortest that are not negative |
| Curve.GejDoubleVar | crypto_tools/secp256k1/group_impl.h:306-359 | the double, with z multiplied by the ratio that is returned |
| Curve.GejAddGeVar | crypto_tools/secp256k1/group_impl.h:419-466 | the sum for every pair of points, including equal, opposite and infinite ones, over any common factor of z |
| Curve.UnifiedSum | crypto_tools/secp256k1/group_impl.h:527-645 | the end of the unified addition over any common factor of z: double, sum and infinity from one quotient |
| Curve.GejAddVar | crypto_tools/secp256k1/group_impl.h:366-417 | the same for two points in Jacobian coordinates |
| Curve.GejAddZinvVar | crypto_tools/secp256k1/group_impl.h:468-522 | the same for an affine point given with the inverse of its z, also when the accumulator lacks a common factor of z |
| Curve.GejAddGe | crypto_tools/secp256k1/group_impl.h:525-645 | the formula without branches gives the sum in every case and over any common factor of z, with the alternative slope where the usual one vanishes |
| Coordinates.SumX | crypto_tools/secp256k1/group_impl.h:447-465 | the x coordinate of a chord, scaled |
| Coordinates.SumY | crypto_tools/secp256k1/group_impl.h:447-465 | the y coordinate of a chord, scaled |
| Coordinates.DoubleX | crypto_tools/secp256k1/group_impl.h:341-358 | the x coordinate of a tangent, scaled |
| Coordinates.DoubleY | crypto_tools/secp256k1/group_impl.h:341-358 | the y coordinate of a tangent, scaled |
| Coordinates.UnifiedX | crypto_tools/secp256k1/group_impl.h:527-640 | the x coordinate by the unified slope |
| Coordinates.UnifiedY | crypto_tools/secp256k1/group_impl.h:527-640 | the y coordinate by the unified slope |
| CurveTables.GeSetAllGejVar | crypto_tools/secp256k1/group_impl.h:129-168 | with one inversion every finite point becomes affine; the infinity flags are right exactly when some point is finite or the flag was set before |
| CurveTables.FlagLeftClear | crypto_tools/secp256k1/group_impl.h:145-147 | a single infinite point converted into an entry that was finite stays finite there |
| CurveTables.DistributeInverse | crypto_tools/secp256k1/group_impl.h:150-160 | walking back over the products gives the inverse of every finite z |
| CurveTables.FeInvAllVar | crypto_tools/secp256k1/field_impl.h:266-291 | all inverses with one inversion; a single zero makes every result zero |
| CurveTables.GejEqXVar | crypto_tools/secp256k1/group_impl.h:251-257 | compares x with the affine x of the point without inverting |
| CurveTables.GejRescale | crypto_tools/secp256k1/group_impl.h:647-656 | a rescaled point is the same point |
| CurveMultiples.GeGlobalzSetTableGej | crypto_tools/secp256k1/group_impl.h:170-193 | every entry is brought to the z of the last one from the ratios alone |
| CurveMultiples.OddMultiplesTable | crypto_tools/secp256k1/ecmult_impl.h:80-113 | the entries are the odd multiples, each z is the previous one times the stored ratio, and no addition is degenerate |
| CurveMultiples.OddMultiplesGlobalz | crypto_tools/secp256k1/ecmult_impl.h:130-138 | the odd multiples with one common z |
| CurveMultiples.StraussTables | crypto_tools/secp256k1/ecmult_impl.h:509-525 | the tables of all points share one z across their borders |
| CurveMultiples.OddMultiplesTableStorageVar | crypto_tools/secp256k1/ecmult_impl.h:140-269 | the table that kept only y and the ratio ends with x / z^2 and y / z^3 of every odd multiple |
| CurveMultiples.StoreRatios | crypto_tools/secp256k1/ecmult_impl.h:160-176 | the forward loop stores y and the ratio of each step |
| CurveMultiples.RestorePoints | crypto_tools/secp256k1/ecmult_impl.h:213-268 | the backward loop recovers x from d and the ratio, entry by entry |
| CurveMultiples.Restore | crypto_tools/secp256k1/ecmult_impl.h:224-265 | one entry: d_x / d_z^2 less the scaled ratio is x, and y comes with the cube |
| CurveMultiples.NotDegenerate | crypto_tools/secp256k1/ecmult_impl.h:82-111 | an odd multiple and the double of a point of order n have different x while the table lasts |
| CurveEcmult.StraussWnaf | crypto_tools/secp256k1/ecmult_impl.h:450-598 | in coordinates: the main loop runs over the common z of the tables, and after the one multiplication by it the result stands for the sum of all na times A plus ng times G |
| CurveEcmult.Prepare | crypto_tools/secp256k1/ecmult_impl.h:469-542 | the points that contribute are kept, their scalars recoded, and their tables brought to one z |
| CurveEcmult.StraussStep | crypto_tools/secp256k1/ecmult_impl.h:559-592 | one position down: what the accumulator stands for over the common z doubles and gains the digits of all points and of the generator |
| CurveEcmult.AddGeneratorDigit | crypto_tools/secp256k1/ecmult_impl.h:588-591 | an affine multiple of the generator is added over the common z, which counts as the inverse of its z |
| CurveEcmult.RemainingEnds | crypto_tools/secp256k1/ecmult_impl.h:559-592 | above the longest recoding nothing is left to add, and from position zero on everything |
| CurveEcmult.FactorMoved | crypto_tools/secp256k1/ecmult_impl.h:595-597 | multiplying z by the common factor takes it out of the representation |
| CurveEcmult.TableGetGe | crypto_tools/secp256k1/ecmult_impl.h:273-283 | an odd digit selects its multiple over the common z, negated by its y |
| CurveEcmult.TableGetGeStorage | crypto_tools/secp256k1/ecmult_impl.h:285-295 | the same from the affine table of the generator |
| CurveEcmult.TableGetGeConst | crypto_tools/secp256k1/ecmult_const_impl.h:16-36 | the same by a scan of the whole table |
| CurveEcmult.EcmultConstGej | crypto_tools/secp256k1/ecmult_const_impl.h:120-255 | in coordinates: the result stands for q times the point, for every scalar q of the given size |
| CurveEcmult.ConstLoop | crypto_tools/secp256k1/ecmult_const_impl.h:174-209 | the main loop over the common z, no doubling of which meets infinity |
| CurveEcmult.Correct | crypto_tools/secp256k1/ecmult_const_impl.h:213-254 | the skew is taken out by one affine addition of the negative of the point or of its double |
| Field.Cancel | crypto_tools/secp256k1/group_impl.h:251-257 | a nonzero factor cancels in a field with inverses |
| Field10x26.MulInner | crypto_tools/secp256k1/field_10x26_impl.h:460-788 | for limbs below 2^30 no accumulator overflows, the result is congruent to the product and has magnitude 1 |
| Field10x26.SqrInner | crypto_tools/secp256k1/field_10x26_impl.h:790-1062 | the same for the square |
| Field10x26.ColumnsAreProduct | crypto_tools/secp256k1/field_10x26_impl.h:505-785 | the nineteen columns weighted by their places are the product of the two numbers |
| Field10x26.ReduceColumns | crypto_tools/secp256k1/field_10x26_impl.h:505-787 | folding the upper columns in, round by round, keeps the residue and stays within 64 bits |
| FieldNormalize.Normalize | crypto_tools/secp256k1/field_10x26_impl.h:42-95 | for magnitude up to 31: the limbs of the number modulo p |
| FieldNormalize.NormalizeWeak | crypto_tools/secp256k1/field_10x26_impl.h:97-126 | magnitude 1, the same residue, at most a little above 2^256 |
| FieldNormalize.NormalizeVar | crypto_tools/secp256k1/field_10x26_impl.h:128-182 | the same limbs as the constant-time form |
| FieldNormalize.NormalizesToZero | crypto_tools/secp256k1/field_10x26_impl.h:184-211 | true exactly when p divides the number |
| FieldNormalize.NormalizesToZeroVar | crypto_tools/secp256k1/field_10x26_impl.h:213-263 | true exactly when p divides the number, also by the early way out |
| FieldNormalize.CollectLimbs | crypto_tools/secp256k1/field_10x26_impl.h:192-210 | the two accumulated words tell exactly whether the limbs are those of zero or of p |
| FieldNormalize.LowLimb | crypto_tools/secp256k1/field_10x26_impl.h:224-239 | an element divisible by p has the lowest limb of zero or of p after the first pass, so the early way out is right |
| FieldNormalize.SameLimbs | crypto_tools/secp256k1/field_10x26_impl.h:42-95 | almost reduced limbs are determined by the number |
| FieldNormalize.Negate | crypto_tools/secp256k1/field_10x26_impl.h:385-405 | the negative, one magnitude up, without a limb going below zero |
| FieldNormalize.Add | crypto_tools/secp256k1/field_10x26_impl.h:425-444 | magnitudes add up |
| FieldNormalize.MulInt | crypto_tools/secp256k1/field_10x26_impl.h:407-423 | the magnitude is multiplied |
| FieldBytes.SetB32 | crypto_tools/secp256k1/field_10x26_impl.h:322-343 | reads the big-endian number and tells whether it is below p |
| FieldBytes.GetB32 | crypto_tools/secp256k1/field_10x26_impl.h:346-383 | writes the big-endian number |
| FieldBytes.BytesRoundTrip | crypto_tools/secp256k1/field_10x26_impl.h:322-383 | reading and writing gives the same bytes back |
| FieldBytes.SameBytes | crypto_tools/secp256k1/field_10x26_impl.h:346-383 | bytes are determined by the number and their count |
| FieldBytes.FirstByte | crypto_tools/secp256k1/field_10x26_impl.h:322-383 | the first byte has the highest weight |
| FieldPowers.Inv | crypto_tools/secp256k1/field_impl.h:139-227 | the addition chain raises to the power p - 2 |
| FieldPowers.Sqrt | crypto_tools/secp256k1/field_impl.h:39-137 | the chain raises to the power (p + 1) / 4, and the answer is yes exactly when its square is the input |
| FieldPowers.Equal | crypto_tools/secp256k1/field_impl.h:25-30 | true exactly when the two are congruent |
| FieldPowers.InverseOf | crypto_tools/secp256k1/field_impl.h:139-227 | with the little theorem of Fermat for p the chain inverts, and takes zero to zero |
| FieldPowers.RootOf | crypto_tools/secp256k1/field_impl.h:39-137 | with the same theorem a root is found whenever there is one |
| Accumulator.MulAdd | crypto_tools/secp256k1/scalar_8x32_impl.h:265-279 | adds a product to the three words without losing a carry |
| Accumulator.MulAddFast | crypto_tools/secp256k1/scalar_8x32_impl.h:280-293 | the same while the third word stays zero |
| Accumulator.MulAdd2 | crypto_tools/secp256k1/scalar_8x32_impl.h:294-315 | adds twice a product without losing a carry |
| Accumulator.SumAdd | crypto_tools/secp256k1/scalar_8x32_impl.h:316-324 | adds a word without losing a carry |
| Accumulator.Extract | crypto_tools/secp256k1/scalar_8x32_impl.h:334-341 | splits off the lowest word |
| Scalar8x32.Mul512 | crypto_tools/secp256k1/scalar_8x32_impl.h:491-577 | the integer product of two 256-bit numbers |
| Scalar8x32.Sqr512 | crypto_tools/secp256k1/scalar_8x32_impl.h:579-637 | the integer square |
| Scalar8x32.ColumnsAreProduct | crypto_tools/secp256k1/scalar_8x32_impl.h:491-577 | the fifteen columns weighted by their places are the product |
| ScalarOps.Reduce512 | crypto_tools/secp256k1/scalar_8x32_impl.h:349-489 | every 512-bit number to its residue below n |
| ScalarOps.Reduce385 | crypto_tools/secp256k1/scalar_8x32_impl.h:358-421 | first fold: the result has at most one bit above 384 |
| ScalarOps.Reduce258 | crypto_tools/secp256k1/scalar_8x32_impl.h:423-466 | second fold: at most 2 above 256 bits |
| ScalarOps.Reduce256 | crypto_tools/secp256k1/scalar_8x32_impl.h:468-488 | third fold and final subtraction: the residue, below n |
| ScalarOps.Mul | crypto_tools/secp256k1/scalar_8x32_impl.h:647-651 | the product modulo n |
| ScalarOps.Sqr | crypto_tools/secp256k1/scalar_8x32_impl.h:669-673 | the square modulo n |
| ScalarOps.CheckOverflow | crypto_tools/secp256k1/scalar_8x32_impl.h:75-91 | yes exactly when the number is at least n |
| ScalarOps.IsHigh | crypto_tools/secp256k1/scalar_8x32_impl.h:220-236 | yes exactly when the number is above n / 2 |
| ScalarOps.Add | crypto_tools/secp256k1/scalar_8x32_impl.h:115-137 | the sum modulo n, and whether it wrapped |
| ScalarOps.CondNegate | crypto_tools/secp256k1/scalar_8x32_impl.h:238-260 | the negative modulo n or the scalar itself, zero staying zero |
| ScalarOps.CaddBit | crypto_tools/secp256k1/scalar_8x32_impl.h:139-163 | adds a power of two when the sum stays below n |
| ScalarBits.ShrInt | crypto_tools/secp256k1/scalar_8x32_impl.h:653-667 | quotient and remainder by a power of two |
| ScalarBits.GetBits | crypto_tools/secp256k1/scalar_8x32_impl.h:59-62 | the bits of the number at these places, within one word |
| ScalarBits.GetBitsVar | crypto_tools/secp256k1/scalar_8x32_impl.h:64-73 | the same, also across two words |
| ScalarBits.SetB32 | crypto_tools/secp256k1/scalar_8x32_impl.h:165-179 | reads the big-endian number modulo n and tells whether it was reduced |
| ScalarBits.GetB32 | crypto_tools/secp256k1/scalar_8x32_impl.h:181-190 | writes the big-endian number |
| ScalarPowers.Inverse | crypto_tools/secp256k1/scalar_impl.h:55-218 | the addition chain raises to the power n - 2 |
| ScalarPowers.InverseOf | crypto_tools/secp256k1/scalar_impl.h:55-218 | with the little theorem of Fermat for n the chain inverts |
| AesBytes.SBoxIsAffineInverse | crypto_tools/aes/ctaes.c:60-63 | the S-box is the affine image of the inverse in GF(2^8), zero going to zero first (section 5.1.1 of FIPS 197) |
| AesBytes.SubBitsIsSBox | crypto_tools/aes/ctaes.c:106-255 | the forward gates compute the S-box of FIPS 197 for all 256 bytes |
| AesBytes.InvSubBitsIsInvSBox | crypto_tools/aes/ctaes.c:75-214 | the inverse gates compute the inverse S-box |
| AesBytes.SBoxInverse | crypto_tools/aes/ctaes.c:64-256 | the inverse S-box undoes the S-box |
| AesBytes.InvSBoxInverse | crypto_tools/aes/ctaes.c:64-256 | and the other way round |
| AesWords.Gates | crypto_tools/aes/ctaes.c:64-256 | a gate on words acts on every lane by itself |
| AesState.SubBytesGates | crypto_tools/aes/ctaes.c:64-256 | all the gates together are the S-box, or its inverse, in every lane |
| AesState.SubBytes | crypto_tools/aes/ctaes.c:64-256 | in place: every byte of the state goes through the S-box or its inverse |
| AesState.MiddleGates | crypto_tools/aes/ctaes.c:137-174 | the nonlinear gates shared by both directions, lane by lane |
| AesRounds.ShiftRows | crypto_tools/aes/ctaes.c:263-273 | row r moves r places to the left |
| AesRounds.InvShiftRows | crypto_tools/aes/ctaes.c:275-285 | row r moves r places to the right |
| AesRounds.MixColumns | crypto_tools/aes/ctaes.c:289-352 | each column by the products of equations 5.6 and 5.10 of FIPS 197 |
| AesColumns.MixGates | crypto_tools/aes/ctaes.c:304-328 | the factored forward transform on the slices, in every lane |
| AesColumns.CorrectGates | crypto_tools/aes/ctaes.c:329-351 | the further multiplication by {04}x^2 + {05} on the slices, in every lane |
| AesMix.MixedIsFactored | crypto_tools/aes/ctaes.c:304-306 | the factored form is the product by {03}x^3 + {01}x^2 + {01}x + {02} |
| AesMix.UnmixedIsCorrected | crypto_tools/aes/ctaes.c:295-298 | the corrected forward transform is the product by {0b}x^3 + {0d}x^2 + {09}x + {0e} |
| AesMix.FactoredTwice | crypto_tools/aes/ctaes.c:295-298 | the forward transform twice is the multiplication by {04}x^2 + {05} |
| AesMix.UnmixedMixed | crypto_tools/aes/ctaes.c:289-352 | the inverse transform undoes the forward one |
| AesMix.MixedUnmixed | crypto_tools/aes/ctaes.c:289-352 | and the forward one the inverse |
| AesRounds.AddRoundKey | crypto_tools/aes/ctaes.c:354-359 | adds the round key byte by byte |
| AesRounds.MixUndone | crypto_tools/aes/ctaes.c:289-352 | on whole blocks either direction undoes the other |
| AesRounds.ShiftUndone | crypto_tools/aes/ctaes.c:263-285 | on whole blocks either direction undoes the other |
| AesLoad.LoadByte | crypto_tools/aes/ctaes.c:25-31 | one byte is joined into its lane, the other lanes are kept |
| AesLoad.LoadBytes | crypto_tools/aes/ctaes.c:34-42 | sixteen bytes, column by column |
| AesLoad.SaveBytes | crypto_tools/aes/ctaes.c:45-58 | the sixteen bytes of the state, column by column |
| AesLoad.TransposedTwice | crypto_tools/aes/ctaes.c:33-58 | saving undoes the order of loading |
| AesCipher.Encrypt | crypto_tools/aes/ctaes.c:449-468 | the cipher of section 5.1 of FIPS 197, state by state, for any round keys and any number of rounds from 1 |
| AesCipher.CipherStates | crypto_tools/aes/ctaes.c:449-468 | the states before each round: the first key added to the loaded block, then substituted, shifted and mixed with one key after the other, the last time not mixed |
| AesCipher.LastKeyAdded | crypto_tools/aes/ctaes.c:463-466 | a change of the last round key changes the ciphertext by exactly that much |
| AesCipher.RoundColumn | crypto_tools/aes/ctaes.c:457-460 | one round byte by byte: which bytes are substituted into a column, and with which factors |
| AesCipher.Decrypt | crypto_tools/aes/ctaes.c:470-495 | the inverse cipher of section 5.3, state by state |
| AesCipher.InvCipherStates | crypto_tools/aes/ctaes.c:470-495 | the same states from the last to the first |
| AesCipher.DecryptsEncrypted | crypto_tools/aes/ctaes.c:449-495 | decryption undoes encryption for every block, all round keys and every number of rounds |
| AesCipher.EncryptsDecrypted | crypto_tools/aes/ctaes.c:449-495 | encryption undoes decryption |
| AesKeySchedule.Setup | crypto_tools/aes/ctaes.c:407-447 | the columns of the round keys are the words of section 5.2 of FIPS 197, each given by the word before it and the one nk places before, for every number nk of key words from 4; what the other lanes of the working column hold does not matter |
| AesKeySchedule.NextExpanded | crypto_tools/aes/ctaes.c:425-446 | each word byte by byte: of the key itself, or the word nk places before plus the rotated and substituted, the substituted or the plain previous word |
| AesKeySchedule.RoundConstants | crypto_tools/aes/ctaes.c:386-396 | the ten round constants of FIPS 197 |
| AesVectors.ExpansionA3 | crypto_tools/aes/ctaes.c:407-447 | words 8 and 12 of appendix A.3 of FIPS 197 |
| AesVectors.CipherC3 | crypto_tools/aes/aes.cpp:14-27 | the ciphertext of appendix C.3 of FIPS 197 |
| AesVectors.PlainOfC3 | crypto_tools/aes/aes.cpp:29-42 | the same block decrypted |
| AesKeySchedule.TransformColumn | crypto_tools/aes/ctaes.c:436-443 | every nk-th word is rotated, substituted and added to the current power of x; with more than six key words every fourth one is substituted |
| AesKeySchedule.AddAndStore | crypto_tools/aes/ctaes.c:444-446 | word i is word i - nk plus the transformed word before it, stored into an empty column |
| AesKeySchedule.KeySetupColumnMix | crypto_tools/aes/ctaes.c:370-375 | only column 0 of the working state is read and only one column of the round key is written |
| AesKeySchedule.GetOneColumn | crypto_tools/aes/ctaes.c:362-367 | one column, moved to column 0 |
| AesKeySchedule.KeySetupTransform | crypto_tools/aes/ctaes.c:378-383 | column 0 rotated by one row and added to the round constant |
| AesKeySchedule.MultX | crypto_tools/aes/ctaes.c:386-396 | every lane multiplied by x |
| Aes256.BlockRoundTrip | crypto_tools/aes/aes.cpp:14-42 | under one 32-byte key the two directions undo each other |
| Aes256.Context.constructor | crypto_tools/aes/aes.cpp:14-17 | holds the schedule of its key |
| AesCbc.CBCEncrypt | crypto_tools/aes/aes.cpp:45-79 | writes the chained blocks of the data, padded if asked; nothing for empty data or a part of a block without padding |
| AesCbc.CBCDecrypt | crypto_tools/aes/aes.cpp:81-120 | writes the unchained blocks; the length is what is left without the padding, or zero when the padding is malformed |
| AesCbc.CheckPadding | crypto_tools/aes/aes.cpp:104-119 | fails exactly when the data does not end in p bytes of value p for some p from 1 to 16 |
| AesCbc.SealedBlocks | crypto_tools/aes/aes.cpp:45-79 | each block of the padded message is added to the ciphertext block before it and encrypted; the padding is as many bytes as are missing, of that value |
| AesCbc.UnchainedBlocks | crypto_tools/aes/aes.cpp:81-103 | each block of the ciphertext is decrypted and added to the one before it |
| AesCbc.PlainLengthMeans | crypto_tools/aes/aes.cpp:104-119 | what is left without p bytes of value p at the end, or nothing |
| AesCbc.UnchainChain | crypto_tools/aes/aes.cpp:45-120 | unchaining undoes chaining |
| AesCbc.ChainUnchain | crypto_tools/aes/aes.cpp:45-120 | chaining undoes unchaining |
| AesCbc.PadUnpad | crypto_tools/aes/aes.cpp:68-119 | padding again what was unpadded gives the same bytes |
| AesCbc.OpensSealed | crypto_tools/aes/aes.cpp:45-120 | a sealed message opens to itself |
| AesCbc.SealsOpened | crypto_tools/aes/aes.cpp:45-120 | when decryption returns a positive length, encrypting that prefix gives the ciphertext again |
| KeyTools.AesEncode | crypto_tools/key_tools.cpp:61-76 | succeeds exactly for a 16-byte iv and a message that is not empty, and then fills the output exactly |
| KeyTools.AesDecode | crypto_tools/key_tools.cpp:78-98 | succeeds exactly when something is recovered; a key of another length is cut or filled with zeros |
| KeyTools.DecodesEncoded | crypto_tools/key_tools.cpp:61-98 | decoding an encoded message gives the message |
| KeyTools.EncodesDecoded | crypto_tools/key_tools.cpp:61-98 | encoding a decoded message gives the input again |
| Blake2b.State.Update | crypto_tools/blake2/blake2b.cc:242-280 | appends to what was absorbed, holding back the last block even when it is full; a finalised state refuses data |
| Blake2b.State.Final | crypto_tools/blake2/blake2b.cc:283-311 | the digest of section 3.3 of RFC 7693 of everything absorbed, once, as a chain of compressions with their counters and flags |
| Blake2b.DigestChain | crypto_tools/blake2/blake2b.cc:242-311 | every block but the last is compressed with the number of bytes up to its end, the last one, filled with zeros, with the number of all bytes and the first flag |
| Blake2b.State.Init | crypto_tools/blake2/blake2b.cc:107-133 | an empty open state for 1 to 64 bytes, a closed one otherwise |
| Blake2b.State.InitKey | crypto_tools/blake2/blake2b.cc:136-181 | the key, filled with zeros, is the first block of the data |
| Blake2b.State.IncrementCounter | crypto_tools/blake2/blake2b.cc:72-76 | the two words count modulo 2^128 |
| Blake2b.CounterStep | crypto_tools/blake2/blake2b.cc:72-76 | the carry into the upper word is seen by comparing with the increment |
| Blake2b.AbsorbedPrefix | crypto_tools/blake2/blake2b.cc:242-280 | further data does not change what was absorbed |
| Blake2b.InPieces | crypto_tools/blake2/blake2b.cc:242-311 | however the input is cut into updates the digest is that of the whole |
| Blake2b.Joined | crypto_tools/blake2/blake2b.cc:242-280 | pieces are joined in order |
| Blake2b.OnePiece | crypto_tools/blake2/blake2b.cc:242-280 | a single piece is the data itself |
| Blake2b.OneShot | crypto_tools/blake2/blake2b.cc:314-350 | the keyed or unkeyed hash, failing exactly for bad lengths |
| Blake2b.HashMeans | crypto_tools/blake2/blake2b.cc:136-181 | the key length goes into the start, and the key, filled with zeros, fills a block of its own in front of the data |
| Blake2b.Long | crypto_tools/blake2/blake2b.cc:353-409 | the variable-length hash of section 3.3 of RFC 9106 |
| Blake2b.LongMeans | crypto_tools/blake2/blake2b.cc:353-409 | the output length in four bytes is hashed in front of the data, every further value is the hash of the one before, and all but the last give their first half |
| Sha256.State.Write | crypto_tools/secp256k1/hash_impl.h:131-147 | appends to the message, compressing every full block at once |
| Sha256.State.Finalize | crypto_tools/secp256k1/hash_impl.h:149-163 | the digest of the padded message, byte by byte and block by block; the padding ends on a block boundary with the bit length |
| Sha256.DigestChain | crypto_tools/secp256k1/hash_impl.h:131-163 | the blocks of the data, the byte 0x80, the fewest zeros and the number of bits with its highest byte first, compressed one after the other |
| Sha256.PaddingInjective | crypto_tools/secp256k1/hash_impl.h:149-157 | different messages below 2^61 bytes are padded differently |
| Sha256.SizeWords | crypto_tools/secp256k1/hash_impl.h:154-155 | the two shifted words are the bit length modulo 2^64 |
| Sha256.InPieces | crypto_tools/secp256k1/hash_impl.h:131-163 | however the message is cut into writes the digest is that of the whole |
| Sha256.Joined | crypto_tools/secp256k1/hash_impl.h:131-147 | pieces are joined in order |
| Sha256.OnePiece | crypto_tools/secp256k1/hash_impl.h:131-147 | a single piece is the message itself |
## Left out

- The network, server, logging, scripting and user interface code: it is plumbing around libraries that are not part of this model.
- Primality of p and n, associativity of the curve group and its order: hypotheses, as listed above.
- Code not compiled in this configuration: the endomorphism, GMP numbers, inline assembly, the 5x52 field, the 4x64 and the exhaustive-test scalars.
- Constant running time, wiping of memory, quality of randomness and cryptographic hardness.
- The compression functions of Blake2b and SHA-256: arbitrary functions of the chaining words and a block, so that the theorems hold for any of them.
- HMAC, RFC 6979 nonces and the permutation of Argon2: further callers of the hashes that would only repeat their contracts.
- Contexts, callbacks and argument checks of `secp256k1.c`, and null pointer checks everywhere.
- Structures and output buffers passed by pointer are values and return values where a routine only fills them; what the model then does not capture is a caller passing the same structure twice. Tables, digit arrays, buckets, AES states, hash buffers and contexts are updated in place as in the source.
- Layer 1 works on group elements and numbers. The same is proved on coordinates for Strauss' method and the constant-time multiplication; for the bucket method and the comb, which have no common z, the single additions are proved in `Curve`. That limbs implement the field is layer 3.
- Bit operations on disjoint or aligned fields of limbs and words are written as sums, quotients and remainders by powers of two, and masks that are all ones or zero as conditions.
- Ecdsa.Sign: one nonce per call; the loop that draws nonces until one is good has no bound and is not modelled.
- EcmultGen.Context.Blind: the blinding scalar is a parameter; the hash chain and the loop that draws it until it is in range are not modelled, nor is the random factor for the coordinates of the initial point, which by `CurveTables.GejRescale` stands for the same point.
- EcmultGen.Context.Build: the same, and the point `nums` is taken as given rather than decoded from its 32 letters.
- EcmultMulti.MultiVar: whether the system grants memory is a function of the batch; pointers to objects in a frame are offsets.
- EcmultConst.EcmultConst: for sizes below the full one the caller has to pass a scalar of that size, as the source asks; the point is finite.
- Der.ParseInteger: called with less than 2^31 bytes left, which `Der.Parse` makes sure of before.
- AesCbc.CBCEncrypt: lengths are unbounded, where the source counts in a C `int`.
- AesCbc.CBCDecrypt: the same.
- KeyTools.AesEncode: the same, and the output string is a value that is passed in and returned.
- KeyTools.AesDecode: the same.
- AesKeySchedule.Setup: any number of key words from 4; the 128- and 192-bit contexts and the loops over many blocks of `ctaes.c` add nothing to it.
- AesState.SubBytes: the gates of the S-box are written as named expressions in groups, in the order of the source.
- Blake2b.State.Init: the parameter block is reduced to the output and key length, the only fields the callers set.
- Sha256.PaddingInjective: messages below 2^61 bytes, the limit of the standard; longer ones wrap their length.
- BatchSizes.PippengerMaxPoints: the sizes of the structures are those of a 64-bit build (84, 124, 40, 32, 16, 16 and 1040 bytes), and `size_t` has 64 bits.
- FieldNormalize.Normalize: magnitudes up to 31, beyond which the first 32-bit additions could wrap.
