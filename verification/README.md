# Verification of g20dispatcher

Dafny models, with proofs, of the algorithms this repository consists of: the event daemon for the G20
remote, the check for Kodi in front, and the AOSP headers whose bodies the native part is built on. Each
module follows one component.

- `Matrices`, `MatrixInverse`: column-major matrices over the reals, the products of any sizes, Gauss-Jordan inversion in
  place on two arrays, the closed forms for sizes 2 and 3, and the choice between them.
- `Quaternions`, `RotationExtraction`: quaternion algebra, rotation of vectors, the 3x3 matrix of a quaternion,
  and the way back from a matrix to a quaternion. The square root is a parameter: any function that gives the
  non-negative root of a non-negative number.
- `StrongPointers`: `sp` and the intrusive count as a state machine. Each operation is the sequence of single
  reads, writes and atomic changes the source makes; threads interleave them in any order, under the documented
  rule that no two operations use the same `sp` at once if one of them writes it.
- `ByteSequences`, `ParcelFormat`, `Parcels`: the recursive parcel serialiser. Types are described by a datatype
  (primitives, strings, parcelables, vectors, nullables). `Encode` and `Decode` say what every type writes and
  what reading it gives on any buffer; the class `Parcel` writes and reads step by step, with a cursor, and is
  proved to do just that.
- `ParcelLayout`: the wire format in numbers, byte by byte, and what reading makes of too little data.
- `KodiScan`: the checks on the activity manager's reply and the heuristic scan of the Intent, on a `Parcel`.
- `ElementMoves`: moving elements within one block of memory, with the lifetime of each slot.
- `WeakPointers`: `wp` over a heap where addresses of objects and of weakref records are used again.
- `Presses`, `Devices`: the daemon. Input events become key presses; notifications and a directory scan decide
  which device is open, through one descriptor; a round of the main loop joins the two.
- `BitSets`: the bit sets of 32, 64 or any number of bits. A word is the sequence of its bits, most significant
  first, since every operation used is bit by bit.

What the code does where one might expect otherwise is proved too.

- The Gauss-Jordan elimination comes to a zero pivot exactly on matrices without an inverse
  (`MatrixInverse.DividesByZeroOnSingular`).
- The scan for the Intent's end recognises a marker only at the end of an odd run of user hints, for every parcel
  (`KodiScan.Scan`), so that one hint too many hides Kodi (`KodiScan.WhenRecognised`, `KodiScan.OneHintTooMany`).
- A second key event ends a stamped press there and then, and if the code is scanned after it the press
  dispatches again (`Presses.RepeatEndsThePress`, `Presses.ScanAfterRepeatDispatchesAgain`);
  `Presses.WhenDispatchedAsMeant` says exactly when a press with other key events is dispatched as meant.
- A key up that no key down came before dispatches all the same, with the time of day for its duration
  (`Presses.KeyUpAlone`).
- A device replaced within one batch of notifications does not drop the press in hand
  (`Devices.ReplacedInOneBatch`); `Devices.PressIsKept` says exactly when a batch keeps it.
- In `extractQuat`, the guard against a zero divisor can never be false (`RotationExtraction.RadicandAtLeastOne`).
- Each element-wise move is safe in one direction only, or between runs apart (`ElementMoves.WhenForwardIsSafe`,
  `ElementMoves.WhenBackwardIsSafe`). Where nothing is destroyed, the other direction repeats elements, and gives
  the move exactly if those written over are equal to what is written there (`ElementMoves.WhenCopiedDownMoves`,
  `ElementMoves.WhenCopiedUpMoves`).

Assumptions on code that is not part of this model. The parcel primitives are declared but not defined in the
repository: they follow the layout described at `Parcel.h:617-697`, little-endian, with lengths limited to the
largest 32-bit signed integer; a read without enough data fails and leaves the cursor; a string is its length, its
units and a terminator, padded. The weakref record follows the invariants stated at `RefBase.h:523-537`: it lives
while its object or a weak pointer to it does. The kernel gives a probe a descriptor other than the one in use and
delivers whole notifications. Signed times wrap around at their width.

## Model

| member | source | states |
|---|---|---|
| Matrices.MultiplyVector | native/extra_ndk/include/math/mat3.h:373-382 | the accumulating loop gives, for every number of rows and columns, each row times the vector |
| Matrices.Multiply | native/extra_ndk/include/math/TMatHelpers.h:241-260 | for all matrices whose inner dimensions agree, each entry is a row of the one times a column of the other |
| Matrices.InverseIsUnique | native/extra_ndk/include/math/TMatHelpers.h:227-239 | a matrix has at most one two-sided inverse |
| Matrices.RightInverseIsTwoSided | native/extra_ndk/include/math/TMatHelpers.h:80-124 | a right inverse built by invertible column operations is a left inverse too |
| MatrixInverse.PivotExists | native/extra_ndk/include/math/TMatHelpers.h:87-103 | with the first i rows already those of the identity and only zero sent to zero, some column from i on has a non-zero entry in row i |
| MatrixInverse.FindPivot | native/extra_ndk/include/math/TMatHelpers.h:89-97 | the column found has the largest absolute entry of those not yet done |
| MatrixInverse.PivotIsNonZero | native/extra_ndk/include/math/TMatHelpers.h:89-105 | on an invertible matrix, the entry divided by is never zero |
| MatrixInverse.SwappedStage | native/extra_ndk/include/math/TMatHelpers.h:99-103 | the column swap keeps src times inverted equal to tmp, the rows already done, and the trivial null space |
| MatrixInverse.DividedStage | native/extra_ndk/include/math/TMatHelpers.h:105-109 | so does dividing the pivot column in both matrices |
| MatrixInverse.ReducedStage | native/extra_ndk/include/math/TMatHelpers.h:111-120 | factoring out the other columns makes one more row that of the identity |
| MatrixInverse.StageEnd | native/extra_ndk/include/math/TMatHelpers.h:80-124 | once all rows are those of the identity, inverted undoes src on both sides |
| MatrixInverse.EliminateIndex | native/extra_ndk/include/math/TMatHelpers.h:87-121 | one round of the outer loop, on the two arrays in place, takes a column whose entry i is largest as the pivot, and does the swap, division and reductions of that pivot to both |
| MatrixInverse.NextStage | native/extra_ndk/include/math/TMatHelpers.h:87-121 | a whole round with any non-zero pivot leads from stage i to stage i + 1 |
| MatrixInverse.ZeroPivotIsSingular | native/extra_ndk/include/math/TMatHelpers.h:89-105 | if the largest entry to divide by is zero, at whatever index, the matrix has no inverse |
| MatrixInverse.DividesByZeroOnSingular | native/extra_ndk/include/math/TMatHelpers.h:80-124 | for every size, the elimination divides by zero exactly if the matrix has no inverse |
| MatrixInverse.GaussJordanInverse | native/extra_ndk/include/math/TMatHelpers.h:80-124 | for every size and every invertible matrix, the result is its inverse on both sides |
| MatrixInverse.FastInverse2 | native/extra_ndk/include/math/TMatHelpers.h:128-156 | with a non-zero determinant, the closed form is the two-sided inverse |
| MatrixInverse.RowExpansion | native/extra_ndk/include/math/TMatHelpers.h:175-213 | a row times its own cofactors is the determinant, times another row's is zero |
| MatrixInverse.ColumnExpansion | native/extra_ndk/include/math/TMatHelpers.h:175-213 | the same for columns |
| MatrixInverse.UnscaledInverse3 | native/extra_ndk/include/math/TMatHelpers.h:186-216 | the nine stored formulas are the cofactors and the sum is the determinant |
| MatrixInverse.FastInverse3 | native/extra_ndk/include/math/TMatHelpers.h:159-225 | with a non-zero determinant, the closed form is the two-sided inverse |
| MatrixInverse.Determinant3NonZero | native/extra_ndk/include/math/TMatHelpers.h:227-239 | an invertible 3x3 matrix has a non-zero determinant, so the closed form may be chosen |
| MatrixInverse.Inverse | native/extra_ndk/include/math/TMatHelpers.h:227-239 | the chosen method gives the one inverse there is: the closed forms agree with the elimination |
| Quaternions.MulAssociative | native/extra_ndk/include/math/TQuatHelpers.h:91-104 | the quaternion product is associative |
| Quaternions.UnitProducts | native/extra_ndk/include/math/TQuatHelpers.h:91-104 | ij = k, jk = i, ki = j, and each squared is minus one |
| Quaternions.TurnsTowardsSecondAxis | native/extra_ndk/include/math/TQuatHelpers.h:106-113 | a quaternion about the third axis turns the first axis towards the second, by twice its angle |
| Quaternions.DotMultiplicative | native/extra_ndk/include/math/TQuatHelpers.h:165-172 | the squared norm of a product is the product of the squared norms |
| Quaternions.InverseIsInverse | native/extra_ndk/include/math/TQuatHelpers.h:194-202 | a non-zero quaternion times its inverse is one, on both sides |
| Quaternions.InverseMul | native/extra_ndk/include/math/TQuatHelpers.h:199-202 | the inverse of a product is the product of the inverses in reverse |
| Quaternions.RotateIsPure | native/extra_ndk/include/math/TQuatHelpers.h:106-113 | the sandwich product has no real part, so taking the imaginary part loses nothing |
| Quaternions.RotateMul | native/extra_ndk/include/math/TQuatHelpers.h:106-113 | rotating by a product is rotating by one factor after the other |
| Quaternions.RotatePreservesLength | native/extra_ndk/include/math/TQuatHelpers.h:106-113 | rotation keeps the length of every vector |
| Quaternions.MatrixFromQuaternion | native/extra_ndk/include/math/mat3.h:339-359 | the constructor's matrix rotates every vector as the quaternion does, and is the identity for the zero quaternion |
| Quaternions.MatrixRotates | native/extra_ndk/include/math/mat3.h:339-359 | the matrix applied to any vector is the vector rotated by the quaternion |
| Quaternions.MatrixOfProduct | native/extra_ndk/include/math/mat3.h:339-359 | the matrix of a product is the product of the matrices |
| Quaternions.MatrixOfInverse | native/extra_ndk/include/math/mat3.h:339-359 | the matrix of the inverse undoes the matrix on both sides |
| Quaternions.MatrixPreservesLength | native/extra_ndk/include/math/mat3.h:339-359 | the matrix keeps the length of every vector |
| Quaternions.ApplyIsGeneral | native/extra_ndk/include/math/mat3.h:373-382 | the product of three columns by a vector is the product of any number of columns |
| Quaternions.ProductIsGeneral | native/extra_ndk/include/math/TMatHelpers.h:241-260 | the product of two such matrices is the general one |
| RotationExtraction.RadicandAtLeastOne | native/extra_ndk/include/math/TMatHelpers.h:321-334 | for any matrix without positive trace, the chosen diagonal makes the root's argument at least one, so the divisor is never zero |
| RotationExtraction.ExtractQuat | native/extra_ndk/include/math/TMatHelpers.h:300-340 | on both branches, and for each diagonal chosen, the result has the table of products the matrix prescribes; its `w` is positive if the trace is, else its component at the first greatest diagonal entry |
| RotationExtraction.ExtractFromUnit | native/extra_ndk/include/math/TMatHelpers.h:300-340 | from the matrix of any unit quaternion q, the result is q or its negation |
| RotationExtraction.ExtractFromRotation | native/extra_ndk/include/math/TMatHelpers.h:300-340 | from any rotation matrix, a unit quaternion whose matrix it is, the only one up to sign |
| RotationExtraction.MatrixIsRotation | native/extra_ndk/include/math/mat3.h:339-359 | the matrix of a non-zero quaternion has orthonormal, right-handed columns |
| StrongPointers.StepKeepsInv | native/extra_ndk/include/utils/StrongPointer.h:216-377 | every single step of every operation keeps the invariant: exact counts, one deletion, no race report, no access to a deleted object |
| StrongPointers.BeginKeepsInv | native/extra_ndk/include/utils/RefBase.h:164-170 | so does the start of an operation that the documented rule allows |
| StrongPointers.ReachedInv | native/extra_ndk/include/utils/StrongPointer.h:216-377 | the invariant holds after every interleaving |
| StrongPointers.EveryStepIsSafe | native/extra_ndk/include/utils/LightRefBase.h:38-51 | under every interleaving no step touches a deleted object, and the re-read of the pointer never reports a race |
| StrongPointers.EveryCountIsExact | native/extra_ndk/include/utils/LightRefBase.h:38-51 | under every interleaving the count is the cells pointing at the object, less references already given up or not yet taken, plus those in hand; nothing is deleted twice or while referenced |
| StrongPointers.PointerIsLive | native/extra_ndk/include/utils/StrongPointer.h:271-328 | a cell nobody is writing keeps its object alive |
| StrongPointers.AtRest | native/extra_ndk/include/utils/LightRefBase.h:46-51 | with no operation running, the count is the number of cells pointing at the object, and it has been deleted exactly once if there are none |
| StrongPointers.OperationTakesEffect | native/extra_ndk/include/utils/StrongPointer.h:216-377 | whatever the others do between its start and its end: a make leaves a new object in its cell, a copy or assignment the source's pointer in both cells, a move the source's pointer in the one and null in the other, a destruction no cell, a reset null |
| StrongPointers.OperationEnds | native/extra_ndk/include/utils/StrongPointer.h:216-377 | an assignment takes at most seven steps of its own, a reset five, a destruction four, a construction three, and it can always take the next |
| StrongPointers.RaceIsReported | native/extra_ndk/include/utils/StrongPointer.h:309-328 | under any schedule, by the rule or against it, an assignment or reset reports a race exactly when its second read of the cell finds another pointer than its first |
| StrongPointers.SharedCellIsUnsafe | native/extra_ndk/include/utils/RefBase.h:166-170 | in every reached state at rest, two concurrent resets of a cell with the only reference break the rule and access the deleted object |
| StrongPointers.OneReferenceIsReached | native/extra_ndk/include/utils/StrongPointer.h:216-224 | such states are reached by making an object |
| ParcelFormat.RoundTrip | native/extra_ndk/include/binder/Parcel.h:804-1109 | for every type and every value written, reading where it stands gives the value back with status OK and moves the cursor exactly past it |
| ParcelFormat.FieldsRoundTrip | native/extra_ndk/include/binder/Parcel.h:617-622 | values of any types written in sequence are read back in order |
| ParcelFormat.WriteSucceeds | native/extra_ndk/include/binder/Parcel.h:883-928 | writing succeeds exactly on the values within the size limits at every depth |
| ParcelFormat.EncodingWords | native/extra_ndk/include/binder/Parcel.h:624-635 | every encoding is a positive whole number of words, so the coarse size check never rejects what was written |
| ParcelFormat.FirstWordIsNotNull | native/extra_ndk/include/binder/Parcel.h:667-670 | a value's first word is never the one that stands for null |
| ParcelFormat.EncodingsAreUnambiguous | native/extra_ndk/include/binder/Parcel.h:804-928 | no encoding is a proper prefix of another of its type, and no two values share one |
| ParcelLayout.PrimitiveLayout | native/extra_ndk/include/binder/Parcel.h:624-635 | wide primitives are two words, all others one, lowest byte first; an unsigned byte is widened as a signed one |
| ParcelLayout.StringLayout | native/extra_ndk/include/binder/Parcel.h:844-846 | a string is its length, its units with the lower byte first, a zero unit, and zeros up to a whole word |
| ParcelLayout.ByteVectorLayout | native/extra_ndk/include/binder/Parcel.h:643-646 | a vector of bytes is its length word, one byte an element, and zeros up to a whole word |
| ParcelLayout.VectorLayout | native/extra_ndk/include/binder/Parcel.h:648-657 | a vector of any other type is its length word and then what each element writes on its own |
| ParcelLayout.ParcelableLayout | native/extra_ndk/include/binder/Parcel.h:637-641 | a parcelable is [1, 0, 0, 0] and then what each field writes on its own |
| ParcelLayout.NullableLayout | native/extra_ndk/include/binder/Parcel.h:661-670 | null is [0, 0, 0, 0] for a parcelable and four bytes of 255 for a vector or string; a value is written as if it were not nullable |
| ParcelLayout.TooLong | native/extra_ndk/include/binder/Parcel.h:901-917 | a vector of more than 2147483647 elements writes nothing, one whose block would be larger than that writes its length, and both fail |
| ParcelLayout.VectorStops | native/extra_ndk/include/binder/Parcel.h:921-925 | a vector stops at the first element that fails, with that element's status, and what was written stays |
| ParcelLayout.ParcelableStops | native/extra_ndk/include/binder/Parcel.h:855-860 | so does a parcelable at its first field that fails |
| ParcelLayout.PrimitiveReads | native/extra_ndk/include/binder/Parcel.h:934-972 | on any word, what each narrow primitive makes of it |
| ParcelLayout.DecodeOfMore | native/extra_ndk/include/binder/Parcel.h:934-1109 | on any buffer, what a successful read gives does not change when more data follows |
| ParcelLayout.TruncationIsNoticed | native/extra_ndk/include/binder/Parcel.h:934-1109 | for every type and value, reading fails wherever the data ends within what was written |
| ParcelLayout.WhenRefused | native/extra_ndk/include/binder/Parcel.h:986-1071 | too little data, a first word other than 1 for a parcelable, a negative or too large size for a vector: each with its status and cursor |
| ParcelLayout.WhenStringIsRead | native/extra_ndk/include/binder/Parcel.h:974-976 | a string is read exactly when its length is neither negative nor too large, it is all there, and a zero unit ends it |
| ParcelLayout.VectorFails | native/extra_ndk/include/binder/Parcel.h:1070-1107 | a vector whose size is accepted fails as its first failing element does, with that element's status and cursor; one of primitives if its block is not all there |
| ParcelLayout.ParcelableFails | native/extra_ndk/include/binder/Parcel.h:986-992 | a parcelable that is not null fails as its first failing field does |
| ParcelFormat.PrimRoundTrip | native/extra_ndk/include/binder/Parcel.h:804-842 | widening a primitive to words and narrowing it again gives it back, unsigned bytes through signed ones |
| ParcelFormat.ElementsRoundTrip | native/extra_ndk/include/binder/Parcel.h:905-920 | packed and widened vectors of primitives are read back element by element |
| ParcelFormat.Decode | native/extra_ndk/include/binder/Parcel.h:934-1109 | on any buffer, reading any type ends and leaves the cursor within the data, never before where it was |
| ParcelFormat.DecodeIsSound | native/extra_ndk/include/binder/Parcel.h:1062-1109 | on any buffer, a successful read gives a value of the type, takes a whole positive number of words, and no part at any depth is longer than the bytes taken after the size of the part it is in |
| ParcelFormat.EveryPartFits | native/extra_ndk/include/binder/Parcel.h:1062-1109 | on any buffer, every part at any depth of what is read is what reading gives at its own position, and is no longer than the bytes taken, so than those left, after its own size |
| Parcels.Parcel.WriteData | native/extra_ndk/include/binder/Parcel.h:804-928 | the step-by-step writer lays exactly the encoding over the data at the cursor, with its status, also when it fails midway |
| Parcels.Parcel.WriteWords | native/extra_ndk/include/binder/Parcel.h:913-920 | filling reserved space word by word gives the block of the elements |
| Parcels.Parcel.ReadData | native/extra_ndk/include/binder/Parcel.h:934-1109 | the reader that peeks, rewinds and loops gives exactly what decoding gives, and changes no data |
| Parcels.WriteThenRead | native/extra_ndk/include/binder/Parcel.h:704-717 | writing, setting the position back and reading gives the value, exactly when it is within the limits |
| Parcels.WriteThenReadAll | native/extra_ndk/include/binder/Parcel.h:617-622 | the same for a sequence of values of any types |
| KodiScan.Scan | native/IsKodiTopmostApp.cpp:118-131 | the loop ends on every parcel; it is left by the jump exactly when there is a marker, just past the first, and then the two words before the cursor are -2 and -1 |
| KodiScan.PastPair | native/IsKodiTopmostApp.cpp:127 | the word skipped after an unmatched hint cannot be a marker by the odd-run rule |
| KodiScan.IsKodiTopmostApp | native/IsKodiTopmostApp.cpp:85-143 | on every reply, true exactly when the header passes and the name after the label is Kodi's |
| KodiScan.CheckName | native/IsKodiTopmostApp.cpp:133-143 | comparing the length first, rewinding and reading gives the comparison of the whole string |
| KodiScan.RecognisesName | native/IsKodiTopmostApp.cpp:93-143 | on every reply whose Intent holds no earlier pair and an even number of hints before the last, the answer is whether the name is "org.xbmc.kodi" |
| KodiScan.OverlooksName | native/IsKodiTopmostApp.cpp:126-131 | with an odd number of them and no pair later in the reply's bytes, the answer is no, whatever the name and what follows it |
| KodiScan.WhenRecognised | native/IsKodiTopmostApp.cpp:93-143 | on every reply, with any name and anything after it, in which no other hint is followed by -1, yes exactly when the name is "org.xbmc.kodi" and the number of hints right before the last is even |
| KodiScan.WhenLatinNameIsRecognised | native/IsKodiTopmostApp.cpp:93-143 | the same on every reply without an earlier pair that ends with a name of one-byte characters: such a name holds no pair |
| KodiScan.OnlyRunningTask | native/IsKodiTopmostApp.cpp:85-102 | whatever follows nine words of header, yes only if the status is 0, the count 1, the entry not null and the task running |
| KodiScan.WithoutIntent | native/IsKodiTopmostApp.cpp:103-143 | for a running task without a base intent, whatever the name and what follows, yes exactly when the name is "org.xbmc.kodi" |
| KodiScan.OneHintTooMany | native/IsKodiTopmostApp.cpp:127 | -2, -2, -1 before Kodi's name is missed, -2, -1 is not |
| ElementMoves.Arena.MoveForward | native/extra_ndk/include/utils/TypeHelpers.h:194-219 | moving up, for every overlap: memory as after a move of the whole block, each copy from a live slot to raw memory unless the type has no destructor, the source elements destroyed once each, last first; where none is destroyed, in any direction, memory as the copies leave it one after the other |
| ElementMoves.Arena.MoveBackward | native/extra_ndk/include/utils/TypeHelpers.h:221-244 | moving down, the same, first first |
| ElementMoves.ForwardStep | native/extra_ndk/include/utils/TypeHelpers.h:207-218 | one round: the element has not been touched and its target is free |
| ElementMoves.WhenForwardIsSafe | native/extra_ndk/include/utils/TypeHelpers.h:202-219 | the loop from the last element is safe exactly when it moves up or between runs apart |
| ElementMoves.WhenBackwardIsSafe | native/extra_ndk/include/utils/TypeHelpers.h:229-244 | the loop from the first element is safe exactly when it moves down or between runs apart |
| ElementMoves.CopiedDownRepeats | native/extra_ndk/include/utils/TypeHelpers.h:207-218 | copying down from the last element, each slot gets what its own source slot holds at the end if that is written too, or held at first |
| ElementMoves.WhenCopiedDownMoves | native/extra_ndk/include/utils/TypeHelpers.h:207-218 | for types without a destructor, the loop from the last element gives the move exactly when it moves up or stays, or each element written over too early equals the one written there |
| ElementMoves.WhenCopiedUpMoves | native/extra_ndk/include/utils/TypeHelpers.h:233-243 | the same for the loop from the first element and moves down |
| ElementMoves.MovedBack | native/extra_ndk/include/utils/TypeHelpers.h:194-244 | moving there and back restores memory exactly |
| ElementMoves.MoveKeepsElements | native/extra_ndk/include/utils/TypeHelpers.h:194-244 | a move neither loses nor doubles an element |
| WeakPointers.Heap.ConstructFromObject | native/extra_ndk/include/utils/RefBase.h:552-598 | a weak pointer made from a live object holds its address and record, and keeps the counts exact |
| WeakPointers.Heap.ConstructCopy | native/extra_ndk/include/utils/RefBase.h:586-591 | a copy holds the same and comes from the same object |
| WeakPointers.Heap.Assign | native/extra_ndk/include/utils/RefBase.h:625-635 | assignment, also to itself, copies the value and frees no record still held |
| WeakPointers.Heap.AssignObject | native/extra_ndk/include/utils/RefBase.h:566-573 | assignment from a live object |
| WeakPointers.Heap.Clear | native/extra_ndk/include/utils/RefBase.h:692-700 | clearing leaves a null weak pointer |
| WeakPointers.Heap.Drop | native/extra_ndk/include/utils/RefBase.h:619-623 | destruction gives up the reference |
| WeakPointers.DecKeeps | native/extra_ndk/include/utils/RefBase.h:619-635 | giving up one reference keeps every count exact and never frees a record another cell holds |
| WeakPointers.ImplementationInvariants | native/extra_ndk/include/utils/RefBase.h:523-530 | null with null, or the live object's record, or a dead object's record that is still there |
| WeakPointers.EqualMeansSameObject | native/extra_ndk/include/utils/RefBase.h:467-470 | two weak pointers are equal exactly when both are null or both came from the same object, despite address reuse |
| WeakPointers.ExactlyOneHolds | native/extra_ndk/include/utils/RefBase.h:488-507 | exactly one of less, equal, greater holds and the other operators agree |
| WeakPointers.OrderIsTransitive | native/extra_ndk/include/utils/RefBase.h:488-507 | the comparison is transitive and antisymmetric |
| WeakPointers.OrderIsByAddress | native/extra_ndk/include/utils/RefBase.h:488-507 | of any two weak pointers the one with the lower object address is less, and at one address the one with the lower record |
| WeakPointers.OrderOnLiveObjects | native/extra_ndk/include/utils/RefBase.h:536-537 | on live objects the order is that of their addresses |
| WeakPointers.EqualStrongMeansSameObject | native/extra_ndk/include/utils/RefBase.h:472-481 | a weak pointer equals a strong one exactly when it came from that very object |
| WeakPointers.AddressUsedAgain | native/extra_ndk/include/utils/RefBase.h:474-475 | comparing addresses alone would confuse two objects |
| Presses.Tracker.Handle | native/g20dispatcher.c:266-368 | one event changes scan code, stamp and dispatches as the step function says, and a stamp implies a scan code |
| Presses.StampHasKeycode | native/g20dispatcher.c:257-299 | on every stream, a stamp is only set on a scan code |
| Presses.DispatchWasScanned | native/g20dispatcher.c:271-299 | on every stream, a dispatched scan code was scanned after the last reset, and no other since |
| Presses.NoMoreDispatchesThanScans | native/g20dispatcher.c:271-299 | on every stream, dispatches never outnumber scan events |
| Presses.PressesAreDispatched | native/g20dispatcher.c:245-368 | non-overlapping presses, with other events anywhere between, are dispatched exactly and in order |
| Presses.OnePress | native/g20dispatcher.c:271-298 | with the event types in numbers: a scan, a key down and a key up dispatch one press, long from 500000 microseconds on |
| Presses.OtherScanDrops | native/g20dispatcher.c:274-287 | on every stream with a scan code in hand, a scan of another drops it, and nothing is dispatched until the next scan |
| Presses.DetachmentDrops | native/g20dispatcher.c:257-261 | so does a round without a device |
| Presses.KeyUpAlone | native/g20dispatcher.c:287-298 | after a scan, with any events but scans, key downs and key ups in between, a key up without a key down dispatches, with its own time for a duration |
| Presses.LongMeansHeld | native/g20dispatcher.c:297-298 | the mode is long exactly when the key was down for 500000 microseconds or more |
| Presses.WrapDifference | native/g20dispatcher.c:289-297 | wrapped times give the wrapped difference |
| Presses.RepeatEndsThePress | native/g20dispatcher.c:287-298 | the first other key event in a stamped press dispatches there and then, and if the code is not scanned after it, nothing else dispatches |
| Presses.ScanAfterRepeatDispatchesAgain | native/g20dispatcher.c:271-298 | if the code is scanned after it, the press dispatches at least twice |
| Presses.WhenDispatchedAsMeant | native/g20dispatcher.c:271-298 | whatever key events and scans of the code come while a stamped key is down, the press is dispatched as meant exactly when there is no other key event, or the first gives the same mode as the key up and no scan follows it |
| Presses.RepeatAndScanDispatchTwice | native/g20dispatcher.c:271-298 | one repeat and one scan before the key up dispatch twice |
| Devices.Device.ReadNotifications | native/g20dispatcher.c:76-112 | on every batch, each record is visited once, in order, with its own mask and name, and the device is what the records make it |
| Devices.RecordRoundTrip | native/g20dispatcher.c:94-111 | where a record stands, its fields and name read back |
| Devices.RecordLayout | native/g20dispatcher.c:94-111 | where the bytes of mask, length, name and padding are in a record |
| Devices.OpenAfter | native/g20dispatcher.c:94-111 | a device is open at the end exactly when its creation is the last successful one and it is not deleted later, or it was open and nothing touched it |
| Devices.Device.Open | native/g20dispatcher.c:53-74 | a probe keeps path, descriptor and count of polled descriptors together and leaves open only the stored descriptor |
| Devices.Device.Close | native/g20dispatcher.c:41-51 | closing forgets the device and closes its descriptor |
| Devices.Device.ScanDirectory | native/g20dispatcher.c:114-143 | the first entry for an event device that is the remote is opened, and nothing else |
| Devices.Daemon.Round | native/g20dispatcher.c:248-369 | one round of the main loop: notifications first, then the press is dropped exactly if no device is open, else the event read, if any, reaches the press machine; the press in hand and all dispatches stay those of the run over everything told so far, so that the stream properties hold of the daemon |
| Devices.Daemon.Serve | native/g20dispatcher.c:248-369 | for any number of rounds in which some device is open after each batch: if the events read are those of presses that do not overlap, amid events of other types, exactly those presses are dispatched, in order |
| Devices.ReplacedInOneBatch | native/g20dispatcher.c:257-261 | a device deleted and another found in one batch do not clear the press |
| Devices.PressIsKept | native/g20dispatcher.c:251-261 | a batch keeps a press in hand exactly when some device is open after it: one opened last and not deleted later, or the old one if none was opened and it was not deleted |
| BitSets.LastOperationDecides | native/extra_ndk/include/utils/BitSet.h:71-79 | after any marks and clears, an index is in the set exactly when the last operation on it marked it, or it was in and untouched |
| BitSets.ValueOfBit | native/extra_ndk/include/utils/BitSet.h:41-42 | the value of bit n of a word of any width is two to the power width - 1 - n |
| BitSets.MarkAddsValue | native/extra_ndk/include/utils/BitSet.h:71-74 | marking a bit adds its value to the word |
| BitSets.IndexIsRank | native/extra_ndk/include/utils/BitSet.h:129-137 | the index of a bit is how many marked bits come before it |
| BitSets.IndexGrows | native/extra_ndk/include/utils/BitSet.h:281-285 | different marked bits have different indices, in order |
| BitSets.BitSet.HasBit | native/extra_ndk/include/utils/BitSet.h:67-69 | the mask test is membership |
| BitSets.BitSet.Count | native/extra_ndk/include/utils/BitSet.h:50-54 | the population count is the size of the set |
| BitSets.BitSet.MarkBit | native/extra_ndk/include/utils/BitSet.h:72-74 | adds the index and nothing else |
| BitSets.BitSet.ClearBit | native/extra_ndk/include/utils/BitSet.h:77-79 | removes the index and nothing else |
| BitSets.BitSet.ClearFirstMarkedBit | native/extra_ndk/include/utils/BitSet.h:99-107 | takes out the smallest index |
| BitSets.BitSet.MarkFirstUnmarkedBit | native/extra_ndk/include/utils/BitSet.h:109-117 | adds the smallest index not in the set |
| BitSets.BitSet.ClearLastMarkedBit | native/extra_ndk/include/utils/BitSet.h:119-127 | takes out the largest index |
| BitSets.BitSet.Drain | native/extra_ndk/include/utils/BitSet.h:101-107 | clearing the first marked bit until none is left takes as many rounds as the count, in ascending order, and the k-th bit taken had index k |

## Left out

- Floating-point rounding in the matrix and quaternion code: the model is over the reals.
- The component loops of scalar quaternion products and quotients, `normalize`, `slerp`, and the other matrix helpers.
- Memory orders and the width of the atomic counts: each atomic operation is one step, and counts are unbounded.
- `sp` as a class: its operations are steps of a state machine, since they interleave; objects own no `sp` fields, and construction from plain pointers is the caller's duty.
- `wp::promote`, `fromExisting` and the strong counts behind it: their bodies are not in the repository. The weak count of the model counts weak pointers only.
- Parcel file descriptors, binder objects, enums, blobs, flattenables, UTF-8 strings and the parcel's error state.
- Types of parcel vectors whose elements are strong binders, with their nullable flag.
- `construct_type`, `destroy_type`, `copy_type` and `splat_type`: single loops without overlap.
- Process and system plumbing of the daemon: forking, polling, `ioctl`, spawning, file reads. What they give is a parameter.
- The key mapping from scan codes to injected keys: a dispatch is recorded as its scan code and mode.
- Service connection and the binder transaction before the reply is read.
- Names of notifications longer than the path buffer, and batches the kernel would not deliver.
- `half.h`, timers, logging, string and vector containers, and the Java part.
