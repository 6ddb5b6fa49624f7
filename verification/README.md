# BrightChain core: a verified model

This project models the algorithmic cores of the BrightChain C++ library in Dafny and proves what they are for.
Classes, in-place updates and loops of the source stay classes, fields and loops here; each such method is proved
against a specification function or relation, and the properties are lemmas about those specifications.
What the specifications say is also stated once more without them, in the terms of the inputs: the modules named
`...Meaning`, `...Layout` and `ShareSizes`, and lemmas of that kind beside the others.
`dafny verify dfyconfig.toml` checks everything.

* **Secret sharing** (`BinaryWords`, `BinaryField`, `MultiplicativeOrder`, `WordField`, `PrimitivePolynomials`,
  `FieldTables`, `Polynomials`, `BitStrings`, `ShareText`, `SharingScheme`, `ShareSizes`, `Secrecy`, `Shamir`). The
  exponent and logarithm tables for all sizes from 3 to 20 bits are shown to come from a primitive polynomial, so the
  table product is a field product; Horner's loop is polynomial evaluation and the Lagrange loop is the unique
  interpolant; the bit-string, hexadecimal and share-header codecs round-trip; and any collection of shares of one
  dealing that holds at least `threshold` different ones is combined to the secret in lower case, while any selection of
  one fewer is dealt by exactly one choice of coefficients for every other secret with as many whole 32 digits, which
  are those of as many chunks. `PrimitivePolynomials` is a list of certificates: square-and-step climbs along the powers
  of the generator, evaluated on 32-bit words and transferred to numbers by `WordField`.
* **Paillier** (`NumberTheory`, `TrialDivisions`, `BigNumbers`, `PaillierScheme`, `PaillierExactness`, `Paillier`,
  `PaillierMeaning`, `MillerRabin`, `PrimeSearch`, `Aggregation`, `Hierarchy`, `HierarchyMeaning`). Fermat's little
  theorem and Euclid's lemma from the ground up, existence of the private key exactly when neither prime divides the
  other minus one, the round trip and exactly for which primes and random numbers it holds, the homomorphisms, exactly
  which numbers pass the primality test, the search for primes, and a whole hierarchy of county, state and national
  aggregators at work, whatever the grouping, the map orders and the tallies sent twice.
* **Tallies and ballots** (`Ballots`, `InstantRunoff`, `RunoffMeaning`, `Stv`, `BallotCodec`, `EncryptedPolls`). Whole
  elimination runs: mutual majority, Condorcet loser, later-no-harm, vote conservation, uniqueness of the run; the Droop
  bound, when more are elected than there are seats, and solid coalitions for STV; exactly which integers and rankings
  survive the trip through the cryptosystem; and a ranked poll from key derivation to its result, which is that of the
  ballots as cast.
* **Gossip** (`Gossip`, `GossipMeaning`, `GossipNetwork`). One engine as a class, and any number of them in a network
  with arbitrary schedules, losses and topologies: a potential bounds all deliveries, losses and flushes, an
  announcement crosses at most one link more than its TTL, and every acknowledgement confirms a delivery that took
  place. When the head an update sets is the one its proof signs is stated exactly.
* **Retries** (`Retry`, `RetryRuns`, `RetryMeaning`). The delivery state machine over whole runs: legal transitions, how
  often and how long a delivery is retried, when and with whom its failure is reported.
* **Collections** (`Collections`, `SharedCollections`, `CollectionRuns`, `Renaming`). A content-addressed store, index
  and cache refine a map from id to document; every interleaving of calls by several instances, reads included, is a run
  of one state machine, in which writes are serial on one map and reads see it as it was when their instance last wrote
  or loaded; and what becomes of reads when an update changes an id.
* **ECIES framing and the vote board** (`FixedWidth`, `Ecies`, `FrameLayout`, `BulletinBoards`, `BoardLayout`,
  `BoardSizes`). Frames round-trip; a Merkle root binds the entries below it, and how many they are, up to a collision
  among what was hashed to make it.

The code is followed as it stands, also where its documentation, or a reader's expectation, differs:

* `logs[1]` is the full period, not 0, because the table loop runs one step past it (src/shamir.cpp:102-110).
* A head update whose signature does not verify is not applied, but it is still forwarded, although the comment says it
  is discarded (src/gossip/gossip_engine.cpp:392-395, 426-429).
* The tag of a multi-recipient ECIES frame stands before the ciphertext and an encrypted key takes 48 bytes
  (include/brightchain/ecies.hpp:22-27 describes another layout).
* A Merkle root alone does not say how many hashes it covers: any two sizes have lists with the same root
  (`BoardSizes.CountsNeeded`). Boards of any sizes with the same root hold the same data as long as nothing hashed for
  them collides or hashes to zeros and no entry has the data of an inner node (`BoardSizes.BoardBinds`). Entries whose
  data are not 64 bytes long never do (`BoardSizes.NotMistaken`), which a voter hash of 32 bytes ensures; publishing
  does not demand it, and without it publishing an entry can leave the root as it was (`BoardSizes.SizesConfused`). The
  hashed data of two different entries can be the same (`BulletinBoards.DataAmbiguous`).
* Integers at least 256 with a zero low byte do not survive encoding and decryption (`BallotCodec.CarriedExactly`), so
  rankings of more than 255 entries do not come back.
* Some pairs of primes that the search can draw give no private key, for instance 113 and 227 at seven bits
  (`PrimeSearch.SevenBitsFail`); at whole bytes there is always one unless the same prime is drawn twice
  (`PrimeSearch.WholeBytesGiveKey`), whose key does not decrypt (`PaillierExactness.SamePrime`); and r is drawn without
  checking that it is a unit, without which two plaintexts have the same encryption (`PaillierExactness.Collides`).
* Of the negative integers only -2^55 survives the byte form (`BallotCodec.IntSurvives`).
* A prime is rejected when it is itself among the witnesses tried (`MillerRabin.MillerRabinTest`).
* STV can elect up to twice the seats less one (`Stv.FiveElected`, `Stv.MoreThanSeats`).
* The names and the block in a write proof are not compared with the head update they accompany
  (src/gossip/gossip_engine.cpp:361-396), so a proof of one head can set another (`Gossip.OtherHeadSet`).
* An update that changes `_id` leaves the document under its old id and can make a reloaded instance answer with the
  wrong document (`Renaming.Renamed`); `Renaming.NoneMisleads` says exactly when reads are safe.
* After one instance drops a collection, another that holds documents registers them again with its next insertion
  (`SharedCollections.DropThenInsert`); `Collections.Collection.BaseIsDurable` says exactly when a write starts from the
  registered documents.
* With no retry configured the first check fails recipients that were only announced, which is no edge of the state
  machine (`RetryRuns.GivingUpMoves`).

## Model

| member | source | states |
|---|---|---|
| BinaryField.StepLinear | src/shamir.cpp:105-109 | the shift-and-reduce step of the table loop is linear over XOR |
| BinaryField.StepInjective | src/shamir.cpp:105-109 | the step loses nothing: equal results come from equal values |
| BinaryField.MulExp | src/shamir.cpp:105-109 | multiplying by the m-th power of the generator is taking m steps |
| BinaryField.MulExpExp | src/shamir.cpp:102-110 | powers of the generator multiply by adding exponents |
| MultiplicativeOrder.OrderIsMax | src/shamir.cpp:12-15 | if no prime divisor of 2^b - 1 shortens the period, no smaller exponent returns to 1 |
| MultiplicativeOrder.PrimitiveFrom | src/shamir.cpp:12-15 | a factorisation of 2^b - 1 into primes, none of which shortens the period, shows the generator primitive |
| WordField.StepWord | src/shamir.cpp:105-109 | the step on 32-bit words is the step on numbers |
| PrimitivePolynomials.AllPrimitive | src/shamir.cpp:12-15 | for every size from 3 to 20 bits the polynomial of the table is primitive: powers of the generator first return to 1 after 2^b - 1 steps |
| FieldTables.FullPeriod | src/shamir.cpp:101-110 | the table returns to 1 after 2^b - 1 steps and not before |
| FieldTables.AllVisited | src/shamir.cpp:101-110 | every nonzero value is in the exponent table |
| FieldTables.LogUnique | src/shamir.cpp:101-110 | the logarithm of the i-th power is i, for i from 1 to the full period |
| FieldTables.TableProduct | src/shamir.cpp:113-126 | looking up the sum of two logarithms modulo the period gives the product |
| FieldTables.TableQuotient | src/shamir.cpp:128-151 | the subtract-and-wrap lookup of the Lagrange loop multiplies by a quotient |
| FieldTables.MulComm | src/shamir.cpp:113-126 | the table product is commutative |
| FieldTables.MulAssoc | src/shamir.cpp:113-126 | the table product is associative |
| FieldTables.MulXor | src/shamir.cpp:113-126 | the table product distributes over XOR |
| FieldTables.NoZeroDivisors | src/shamir.cpp:113-126 | a product is zero exactly when a factor is |
| FieldTables.OverUnique | src/shamir.cpp:128-151 | quotients are unique |
| Polynomials.Division | src/shamir.cpp:113-126 | dividing a polynomial by a linear factor leaves its value at the root |
| Polynomials.ManyRoots | src/shamir.cpp:113-151 | a polynomial with as many distinct roots as coefficients vanishes everywhere |
| Polynomials.Unique | src/shamir.cpp:128-151 | polynomials with at most as many coefficients as common points agree everywhere |
| Polynomials.InterpolantAtPoint | src/shamir.cpp:128-151 | the Lagrange sum takes the given values at the given points |
| Polynomials.EvalInterpolant | src/shamir.cpp:128-151 | the Lagrange sum is a polynomial with no more coefficients than points |
| Polynomials.Interpolates | src/shamir.cpp:128-151 | over values of a short enough polynomial the Lagrange sum is that polynomial, anywhere |
| BitStrings.BitsOfHex | src/shamir.cpp:17-53 | hexadecimal to bits and back gives the lower-case digits |
| BitStrings.HexOfBits | src/shamir.cpp:17-53 | bits to hexadecimal and back gives the bits |
| BitStrings.JoinSplit | src/shamir.cpp:61-84 | joining the chunks of a bit string gives it back behind zeros |
| BitStrings.SplitJoin | src/shamir.cpp:61-84 | splitting joined chunks, with up to a chunk of padding, gives them back and at most one zero chunk |
| BitStrings.MarkerFound | src/shamir.cpp:343-350 | behind any zeros, what follows the first 1 is found |
| BitStrings.Hex2Bin | src/shamir.cpp:17-34 | the loop computes the bits, and refuses a non-digit |
| BitStrings.Bin2Hex | src/shamir.cpp:36-53 | the loops pad to whole digits and convert them |
| BitStrings.PadBinary | src/shamir.cpp:233-245 | pads with zeros to a multiple |
| BitStrings.SplitNumStringToIntArray | src/shamir.cpp:61-84 | the loops cut chunks from the right, the remainder last |
| ShareText.ParseFormat | src/shamir.cpp:166-231 | parsing a formatted share gives its size, number and data |
| ShareText.WriteId | src/shamir.cpp:153-184 | a share number fills its hexadecimal field and reads back |
| SharingScheme.Reconstruction | src/shamir.cpp:247-351 | for every size from 3 to 20, hexadecimal secret, choice of coefficients and list of shares holding at least t different ones, in any order and with repeats, combine returns the secret in lower case |
| ShareSizes.PartsCount | src/shamir.cpp:258-264 | a secret of so many digits, marked and padded to a multiple of 128 bits, takes exactly ceil(128 (digits / 32 + 1) / bits) chunks |
| ShareSizes.SameCount | src/shamir.cpp:258-264 | two secrets take as many chunks exactly if they have as many whole 32 digits |
| ShareSizes.PartsSpell | src/shamir.cpp:258-264 | joined, the chunks are zeros, the marker and the bits of the secret |
| ShareSizes.SplitCount | src/shamir.cpp:61-84 | how many chunks a bit string is cut into |
| ShareSizes.SplitAt | src/shamir.cpp:61-84 | which bits each chunk is the value of, counted from the right |
| ShareSizes.BitsWeigh | src/shamir.cpp:61-84 | bits have the value of a binary number, most significant first |
| ShareSizes.OneBit | src/shamir.cpp:61-84 | with the character 1 worth one and 0 worth nothing |
| ShareSizes.HexValue | src/shamir.cpp:17-34 | the bits of a hexadecimal string have the value of its digits |
| ShareSizes.DigitsAre | src/shamir.cpp:17-53 | which characters the digits are, written and read |
| ShareSizes.ShareLayout | src/shamir.cpp:166-184 | where the size, the number and the data stand in a share's text |
| ShareSizes.DealtShare | src/shamir.cpp:247-299 | the i-th share has the number i + 1, exactly as many digits as the length of the secret asks for, and spells its values |
| ShareSizes.ParseMeans | src/shamir.cpp:186-231 | a share is read as its size in base 36, its number in hexadecimal, cut to 32 bits, and the rest as its data |
| ShareSizes.ParseRefuses | src/shamir.cpp:186-196 | what cannot be read, and with which error |
| ShareSizes.FirstUnreadable | src/shamir.cpp:301-333 | combining fails with the error of the first share that cannot be read |
| SharingScheme.UnmarkParts | src/shamir.cpp:261-264 | the marker, padding, chunking and stripping undo each other up to letter case |
| SharingScheme.CollectChosen | src/shamir.cpp:301-333 | parsing the shares of a dealing collects each number once, with its chunks |
| SharingScheme.InterpolatedParts | src/shamir.cpp:335-340 | interpolating the collected chunks gives the chunks of the secret and possibly a zero chunk |
| Secrecy.BelowThreshold | src/shamir.cpp:272-287 | t - 1 share values are consistent with every value of the chunk: some choice of coefficients produces both |
| Secrecy.OnlyOne | src/shamir.cpp:272-287 | and only one choice does |
| Secrecy.SameValues | src/shamir.cpp:289-299 | two shares of the same number read the same exactly if they carry the same values |
| Secrecy.ExactlyOneDealing | src/shamir.cpp:247-299 | for any dealing, any other secret with as many whole 32 digits and any t - 1 share numbers, exactly one choice of coefficients deals the other secret with the same shares under these numbers |
| Shamir.ShamirSecretSharing.InitTables | src/shamir.cpp:95-111 | the loop builds the two tables: powers, and logarithms from 1 to the period |
| Shamir.ShamirSecretSharing.New | src/shamir.cpp:86-93 | sizes outside 3 to 20 are refused |
| Shamir.ShamirSecretSharing.Horner | src/shamir.cpp:113-126 | the loop evaluates the polynomial; at 0 it evaluates at 1 instead |
| Shamir.ShamirSecretSharing.Lagrange | src/shamir.cpp:128-151 | the loops compute the Lagrange sum through the tables |
| Shamir.ShamirSecretSharing.GetIdLength | src/shamir.cpp:153-164 | counts the hexadecimal digits of the largest share number |
| Shamir.ShamirSecretSharing.Format | src/shamir.cpp:166-184 | writes the share text |
| Shamir.ShamirSecretSharing.Parse | src/shamir.cpp:186-231 | reads the share text, rebuilding the tables when the size differs, with each error |
| Shamir.ShamirSecretSharing.Share | src/shamir.cpp:247-299 | deals the shares, with each error |
| Shamir.ShamirSecretSharing.Combine | src/shamir.cpp:301-351 | collects, interpolates at 0, joins and strips, with each error |
| NumberTheory.ModInverse | src/paillier.cpp:545-556 | an inverse exists exactly for coprime numbers, and inverts |
| BigNumbers.NumOfBytes | src/paillier.cpp:41-55 | a stored number reads back |
| BigNumbers.BytesOfNum | src/paillier.cpp:41-55 | bytes without a leading zero survive the number |
| PaillierScheme.Binomial | src/paillier.cpp:105-140 | (1 + kn)^e is 1 + ekn modulo n squared |
| PaillierScheme.Carmichael | src/paillier.cpp:528-539 | every unit to the power lcm(p-1, q-1) is 1 modulo pq |
| PaillierScheme.KeyExists | src/paillier.cpp:528-556 | mu is an inverse exactly when neither prime divides the other minus one |
| PaillierScheme.LargerPrime | src/paillier.cpp:519-556 | there is a key exactly when the larger prime is not 1 modulo the smaller, so always when it is less than twice as large |
| PaillierScheme.RoundTrip | src/paillier.cpp:105-140 | decrypting the encryption of m with any unit r gives m modulo n if the primes give a key, and 0 if not |
| PaillierExactness.Collides | src/paillier.cpp:105-140 | if r shares a prime with n, two different plaintexts have the same encryption |
| PaillierExactness.UnitsReturn | src/paillier.cpp:105-140 | with a key, all plaintexts come back exactly when r is a unit |
| PaillierExactness.SamePrime | src/paillier.cpp:519-526 | one odd prime drawn twice gives a key under which 0 encrypted with r = p + 1 decrypts to p |
| PaillierExactness.PrimesReturn | src/paillier.cpp:519-556 | for odd primes, all plaintexts with all unit r below n come back exactly when the primes differ and neither divides the other minus one |
| PaillierExactness.SafePrimes | src/paillier.cpp:528-556 | two primes p and 2p + 1 give no key |
| PaillierScheme.DecryptProduct | src/paillier.cpp:142-165 | a product of ciphertexts decrypts to the sum modulo n |
| PaillierScheme.DecryptPower | src/paillier.cpp:195-214 | a power of a ciphertext decrypts to the multiple modulo n |
| PrimeSearch.CandidateDrawn | src/paillier.cpp:427-434 | whatever the generator delivers, the candidate is odd, fits the bytes and has bit `bits - 1` set |
| PrimeSearch.DrawnCandidate | src/paillier.cpp:427-434 | and every such number is the candidate of some bytes |
| PrimeSearch.GeneratePrime | src/paillier.cpp:425-465 | the loops return the first of 10000 candidates that passes the sieve and the primality test, or an error if none does; with an iteration at least, 2 to the power r - 1 is 1 modulo the number r returned, and below 59 squared it is a prime |
| PrimeSearch.PrimeTaken | src/paillier.cpp:438-456 | a prime candidate is taken exactly if it is none of the witnesses tried |
| PrimeSearch.SmallPrimesAre | src/paillier.cpp:426-426 | the sieve holds exactly the primes up to 53 |
| PrimeSearch.SieveRejects | src/paillier.cpp:438-453 | a number with a smaller prime factor up to 53 is not taken |
| PrimeSearch.SievedPrime | src/paillier.cpp:438-453 | below 59 squared the sieve leaves only primes |
| PrimeSearch.TakenMeans | src/paillier.cpp:438-456 | a number taken passes Fermat's test for each witness tried and reveals no root of 1 but 1 and -1 |
| PrimeSearch.WholeBytesGiveKey | src/paillier.cpp:427-434 | if the prime length is a positive multiple of 8, two drawn primes have a key under which all plaintexts come back with all unit r below n exactly when they differ |
| PrimeSearch.SevenBitsFail | src/paillier.cpp:427-434 | at seven bits 113 and 227 are drawn and taken, with any number of iterations, and give no key |
| Paillier.PaillierPublicKey.Encrypt | src/paillier.cpp:105-140 | computes g^m r^n modulo n squared |
| Paillier.PaillierPublicKey.Addition | src/paillier.cpp:142-165 | the loop multiplies the ciphertexts; an empty list is an error |
| Paillier.PaillierPublicKey.PlaintextAddition | src/paillier.cpp:167-193 | the loop multiplies by g to each plaintext |
| Paillier.PaillierPublicKey.Multiply | src/paillier.cpp:195-214 | raises to k, taken as the unsigned word it is set from |
| Paillier.PaillierPrivateKey.Decrypt | src/paillier.cpp:261-298 | computes L(c^lambda) mu modulo n |
| Paillier.DeriveKeys | src/paillier.cpp:523-563 | p, q give n, g = n + 1, lambda = lcm(p-1, q-1) and mu |
| Paillier.DecryptProductMod | src/paillier.cpp:142-165 | what addition returns decrypts to the sum of the plaintexts modulo n, for any number of ciphertexts |
| Paillier.DecryptShifted | src/paillier.cpp:167-193 | what plaintextAddition returns decrypts to the plaintext plus all addends modulo n |
| Paillier.DecryptMultiple | src/paillier.cpp:195-214 | what multiply returns decrypts to k times the plaintext modulo n for k >= 0, and to k + 2^64 times it for negative k |
| PaillierMeaning.LambdaLeast | src/paillier.cpp:528-539 | lambda is a multiple of p - 1 and q - 1 that divides every other |
| PaillierMeaning.MuMeans | src/paillier.cpp:541-556 | mu is the inverse of lambda modulo n, and 0 if there is none |
| PaillierMeaning.CiphertextIs | src/paillier.cpp:105-140 | under the generator n + 1 the ciphertext is (1 + mn) r^n modulo n squared |
| PaillierMeaning.PlaintextIs | src/paillier.cpp:261-298 | decryption takes how often n goes into what the power of the ciphertext has above 1, times mu |
| PaillierMeaning.SumIsProduct | src/paillier.cpp:142-165 | addition is the product of all ciphertexts modulo n squared |
| PaillierMeaning.ShiftIsPower | src/paillier.cpp:167-193 | adding plaintexts multiplies by g to the power of their sum |
| MillerRabin.FactorTwos | src/paillier.cpp:378-385 | the loop ends and splits n - 1 into a power of two and an odd part |
| MillerRabin.MillerRabinTest | src/paillier.cpp:369-422 | true exactly when n passes for the first witnesses, so that an odd n taken passes Fermat's test for each; a prime is rejected exactly when it is one of them |
| MillerRabin.OneRound | src/paillier.cpp:391-412 | one witness: the inner loop decides whether n passes |
| MillerRabin.PassesMeans | src/paillier.cpp:391-412 | for odd n > 2, with n - 1 = 2^r d: a passes exactly if a^(n-1) is 1 modulo n and, whenever a^(2^(j+1) d) is 1 for a j < r, a^(2^j d) is 1 or n - 1 |
| MillerRabin.RootFails | src/paillier.cpp:391-412 | a root of 1 other than 1 and -1 among the powers of a witness gives a factor of n, and n fails |
| MillerRabin.PassesEven | src/paillier.cpp:378-412 | for even n there is one look: a^(n-1) must be 1 or n - 1 |
| MillerRabin.WitnessesAre | src/paillier.cpp:387-387 | the witnesses are exactly the primes up to 37, in ascending order |
| MillerRabin.PrimePasses | src/paillier.cpp:391-412 | a prime passes exactly for the witnesses it does not divide |
| Aggregation.KeyInjective | src/hierarchical_aggregator.cpp:104-111 | different jurisdiction ids have different map keys |
| Aggregation.Aggregator.AddTally | src/hierarchical_aggregator.cpp:57-59 | a tally replaces an earlier one of the same jurisdiction |
| Aggregation.Aggregator.GetTally | src/hierarchical_aggregator.cpp:61-102 | the loops fold each choice over the map in its order, sum the voters and list the children; no tally is an error |
| Aggregation.FoldDecrypts | src/hierarchical_aggregator.cpp:78-92 | a fold of ciphertexts decrypts to the sum of the plaintexts modulo n |
| Aggregation.RegionDecrypts | src/hierarchical_aggregator.cpp:78-100 | nested folds decrypt to the sum over the innermost entries, and their voter counts add up to the exact sum |
| Aggregation.CombineNests | src/hierarchical_aggregator.cpp:78-100 | what getTally makes of tallies that are themselves nested folds is the fold one level up |
| Aggregation.GroupingIrrelevant | src/hierarchical_aggregator.cpp:78-100 | two nestings over the same entries agree, however they are grouped |
| Hierarchy.HeldIsKept | src/hierarchical_aggregator.cpp:57-59 | after any sequence of addTally calls the map holds the last tally of each different id, and nothing else |
| Hierarchy.HeldDecrypts | src/hierarchical_aggregator.cpp:57-102 | what getTally then reports, in any order of the map, decrypts to the total of these tallies |
| Hierarchy.HeldVoters | src/hierarchical_aggregator.cpp:57-102 | and its voter count is theirs |
| Hierarchy.Collect | src/hierarchical_aggregator.cpp:57-228 | county, state and national aggregators created, filled with the reports of their parts and asked for their tallies: the top report decrypts to the sum over the precincts that were not replaced, for every choice, with their exact voter count, and carries the id and level of its aggregator and the ids of its parts, each once; an error exactly when some aggregator has no part |
| Hierarchy.HeldNames | src/hierarchical_aggregator.cpp:93-101 | the ids listed in a report are the ids reported, each once |
| HierarchyMeaning.KeptMeans | src/hierarchical_aggregator.cpp:57-59 | a tally counts exactly if no later one of the same jurisdiction was added |
| HierarchyMeaning.CountedMeans | src/hierarchical_aggregator.cpp:57-102 | the precincts counted are those below the parts that no later part replaced |
| HierarchyMeaning.VotersAre | src/hierarchical_aggregator.cpp:78-100 | the voter count is the sum of the voter counts of the tallies counted |
| HierarchyMeaning.TotalIs | src/hierarchical_aggregator.cpp:78-100 | the total of a choice is the sum of what its ciphertexts decrypt to |
| Aggregation.OrderIrrelevant | src/hierarchical_aggregator.cpp:61-102 | the order in which the map is walked does not matter |
| Aggregation.LeadingEmpty | src/hierarchical_aggregator.cpp:78-92 | an empty first entry is replaced by the next |
| Aggregation.LaterEmpty | src/hierarchical_aggregator.cpp:78-92 | an empty entry after a nonempty one makes the choice's ciphertext zero |
| Ballots.VotesConserved | src/poll_tallier.cpp:176-191 | tallies sum to the ballots naming a surviving choice |
| Ballots.VotesGrow | src/poll_tallier.cpp:176-191 | a survivor's votes never fall when more choices are eliminated |
| InstantRunoff.CountFirstChoices | src/poll_tallier.cpp:176-191 | the loop tallies each ballot for its first surviving choice |
| InstantRunoff.FindLast | src/poll_tallier.cpp:262-272 | the scan finds the survivor with fewest votes, the lowest number on ties, and fails only when none survives |
| InstantRunoff.TallyRankedChoice | src/poll_tallier.cpp:193-286 | the loop makes a complete run; the winner survives it, rounds are one more than eliminations and at most the choices |
| InstantRunoff.WinnerSurvives | src/poll_tallier.cpp:202-274 | the winner is never eliminated in its run |
| InstantRunoff.MutualMajority | src/poll_tallier.cpp:193-275 | if more than half of all ballots put a set ahead of all others, the winner is in the set |
| InstantRunoff.CondorcetLoserLoses | src/poll_tallier.cpp:193-275 | with another candidate standing, one who loses to every other head-to-head never wins |
| InstantRunoff.LaterNoHarm | src/poll_tallier.cpp:176-275 | whatever stands below the winner on a ballot can be changed, cut or continued without changing the run |
| InstantRunoff.RoundTallies | src/poll_tallier.cpp:202-230 | each round's tallies are those of the ballots after the eliminations before it |
| InstantRunoff.RoundsConserve | src/poll_tallier.cpp:202-274 | each round's tallies sum to the live ballots, and a survivor's tally never falls to the next round |
| RunoffMeaning.RoundVotes | src/poll_tallier.cpp:176-191 | a round's tally of a choice is the number of ballots on which it stands, not eliminated by an earlier round, with nothing that still stands ahead of it |
| RunoffMeaning.RoundEliminates | src/poll_tallier.cpp:202-274 | in every round but the last nobody has more than half of the votes counted, at least two stand, and the one that goes has the fewest, fewer than every one numbered below it |
| RunoffMeaning.RoundElects | src/poll_tallier.cpp:231-261 | in the last round the winner has more than half of the votes counted or is the only one standing |
| RunoffMeaning.PrefersMeans | src/poll_tallier.cpp:176-191 | what it means that a ballot prefers one choice to another: nothing more than the order on it |
| InstantRunoff.RunUnique | src/poll_tallier.cpp:202-275 | the ballots determine the rounds and the winner |
| Stv.AtMostSeats | src/poll_tallier.cpp:533-550 | at most as many candidates meet the Droop quota as there are seats |
| Stv.QuotaLeast | src/poll_tallier.cpp:533-533 | the quota q is the least: (seats + 1)(q - 1) <= ballots < (seats + 1) q |
| Stv.TurnMeans | src/poll_tallier.cpp:536-572 | a turn elects exactly the survivors with more than one part in seats + 1 of the ballots, and if there is none drops one with the fewest votes |
| Stv.CoalitionElects | src/poll_tallier.cpp:536-572 | the same from any state of the loop, for groups that can still have a member elected |
| Stv.TallyStv | src/poll_tallier.cpp:524-586 | the loop makes a complete run; winners are distinct, at most five, and exactly they get a final tally of one; at most as many turns as choices; it ends with the seats filled or every choice used |
| Stv.LoopBounds | src/poll_tallier.cpp:536-572 | from any state of the loop: winners stay distinct and below twice the seats, turns are at most the choices, unfilled seats mean every choice was used |
| Stv.TallyBounds | src/poll_tallier.cpp:524-586 | a tally elects at most 2 seats - 1 distinct winners within as many turns as choices |
| Stv.MoreThanSeats | src/poll_tallier.cpp:536-563 | more are elected than there are seats exactly when in some state of the run, by the tallies of that state, more survivors have over one part in seats + 1 of the ballots than seats are open; that takes an earlier turn that elected somebody |
| Stv.FiveElected | src/poll_tallier.cpp:524-586 | three ballots elect five to three seats: the bound is reached |
| Stv.SolidCoalition | src/poll_tallier.cpp:536-572 | if seats stay unfilled, every group of choices that more than one part in seats + 1 of all ballots rank ahead of everyone else has a member elected |
| BallotCodec.IntToBytes | src/poll_tallier.cpp:17-33 | the loop writes little-endian bytes, with a sign byte for negative values |
| BallotCodec.BytesToInt | src/poll_tallier.cpp:8-15 | the loop reads little-endian bytes |
| BallotCodec.IntRoundTrip | src/poll_tallier.cpp:8-33 | every value from 0 below 2^63 reads back |
| BallotCodec.IntSurvives | src/poll_tallier.cpp:8-33 | of all values an int64 holds but the least, exactly the nonnegative ones and -2^55 read back |
| BallotCodec.MinusOneReads | src/poll_tallier.cpp:8-33 | -1 reads as 65281 |
| BallotCodec.NegativeReads | src/poll_tallier.cpp:8-33 | what a negative value reads as |
| BallotCodec.CarriedTrims | src/paillier.cpp:41-55 | through encryption and decryption a value loses its trailing zero bytes |
| BallotCodec.CarriedExactly | src/paillier.cpp:41-55 | it comes back exactly when it is zero or its low byte is not |
| BallotCodec.Rank256 | src/poll_tallier.cpp:8-33 | 256 comes back as 1 |
| BallotCodec.DecryptsToCarried | src/poll_tallier.cpp:151-174 | decrypting what was encrypted gives the carried value |
| BallotCodec.EncodeRankedChoice | src/vote_encoder.cpp:105-124 | the loops encrypt each choice's rank, zero if unranked |
| BallotCodec.DecryptRanking | src/poll_tallier.cpp:151-174 | for one ballot: the loops decrypt the ranks and list the ranked choices in order |
| BallotCodec.DecodedIsBallot | src/poll_tallier.cpp:151-174 | whatever was decrypted, the ranking is a duplicate-free ballot of existing choices |
| BallotCodec.EncodedRanks | src/poll_tallier.cpp:151-174 | the ranks decrypted from an encoded ballot are the carried ranks |
| BallotCodec.RankingRoundTrip | src/poll_tallier.cpp:151-174 | a duplicate-free ranking comes back exactly when it has at most 255 entries |
| EncryptedPolls.DecryptRankings | src/poll_tallier.cpp:151-174 | the loop over all ballots of the map; the rankings are valid ballots |
| EncryptedPolls.CastDecodes | src/poll_tallier.cpp:151-174 | a ballot encoded under the derived keys decrypts to the ranking cast |
| EncryptedPolls.RankedPoll | src/poll_tallier.cpp:151-286 | keys derived, every ballot encoded, all decrypted and tallied: the result is the run of the ballots as cast |
| Gossip.GossipEngine.AnnounceMessage | src/gossip/gossip_engine.cpp:79-96 | queues a well-formed announcement with the TTL of its priority |
| Gossip.GossipEngine.SendDeliveryAck | src/gossip/gossip_engine.cpp:98-107 | queues an acknowledgement with the default TTL |
| Gossip.GossipEngine.SelectRandomPeers | src/gossip/gossip_engine.cpp:590-606 | whatever the shuffle draws: distinct connected peers, as many as asked and available |
| Gossip.GossipEngine.ForwardAnnouncement | src/gossip/gossip_engine.cpp:554-588 | one copy of TTL one lower to each chosen peer, nothing at TTL zero |
| Gossip.GossipEngine.BatchFlush | src/gossip/gossip_engine.cpp:499-538 | empties the queue; chunk by chunk each announcement is spread unchanged; without peers the batch is lost |
| Gossip.GossipEngine.HandleAnnouncement | src/gossip/gossip_engine.cpp:290-430 | what is sent and queued, which handlers are called, the head registry and the pool cache, and when it throws |
| Gossip.GossipEngine.ApplyByType | src/gossip/gossip_engine.cpp:301-424 | the handling by type: a message for a local user is delivered, acknowledged if asked, and not forwarded |
| GossipMeaning.SpreadMeans | src/gossip/gossip_engine.cpp:554-606 | how many copies are sent, all to different connected peers: the high fanout for messages of high priority and quorum business, the normal one for other messages, the general one for the rest, and to all if there are fewer peers or the setting is negative |
| GossipMeaning.FlushMeans | src/gossip/gossip_engine.cpp:499-538 | a flush sends the copies of the queued announcements one announcement after the other, in their order |
| GossipMeaning.Discarded | src/gossip/block_announcement.cpp:338-421 | every reason for which an announcement is discarded |
| GossipMeaning.ForwardMeans | src/gossip/gossip_engine.cpp:426-429 | what is forwarded, with a TTL one lower, and when nothing is |
| GossipMeaning.QueuedMeans | src/gossip/gossip_engine.cpp:304-344 | one acknowledgement, with all its fields, in the name of the first recipient that is a local user, if asked for; nothing otherwise |
| GossipMeaning.HeadsMean | src/gossip/gossip_engine.cpp:361-396 | which head an update sets, and that no other changes |
| GossipMeaning.PoolsMean | src/gossip/gossip_engine.cpp:346-424 | a pool is known from its announcement to its deletion, by its last announcer |
| Gossip.AppliedIsSigned | src/gossip/gossip_engine.cpp:361-396 | an update accepted with a proof sets the head that was signed, whatever the signatures, exactly when the proof's names and block, put end to end, spell that head |
| Gossip.OtherHeadSet | src/gossip/gossip_engine.cpp:361-396 | a genuine proof of one head sets another |
| Gossip.HeadTextAmbiguous | src/gossip/gossip_engine.cpp:365-366 | the signed text does not separate database and collection, while the registry does |
| Gossip.GossipEngine.FindLocal | src/gossip/gossip_engine.cpp:308-330 | the first recipient that is a local user |
| GossipNetwork.ForwardWeight | src/gossip/gossip_engine.cpp:554-588 | a copy outweighs all copies its forwarding makes |
| GossipNetwork.AckWeight | src/gossip/gossip_engine.cpp:98-107 | a message outweighs the acknowledgement it causes, with all copies of it |
| GossipNetwork.StepPays | src/gossip/gossip_engine.cpp:290-606 | in any network, every delivery, loss and nonempty flush lowers the potential; queueing raises it by exactly what is put in |
| GossipNetwork.Quiesces | src/gossip/gossip_engine.cpp:290-606 | in any run, deliveries, losses and flushes together are at most the potential ever put in |
| GossipNetwork.SilentIffSpent | src/gossip/gossip_engine.cpp:494-538 | the potential is zero exactly when nothing is queued or in flight |
| GossipNetwork.HopBound | src/gossip/gossip_engine.cpp:499-588 | no copy is ever sent over more links than its TTL when queued, plus one |
| GossipNetwork.AcksConfirmDeliveries | src/gossip/gossip_engine.cpp:304-344 | every acknowledgement in the network confirms an earlier delivery of the message to a node of the named recipient |
| Retry.RetryService.TrackDelivery | src/gossip/retry_service.cpp:15-34 | all recipients announced, unless the message is tracked already |
| Retry.RetryService.HandleAck | src/gossip/retry_service.cpp:38-84 | a legal acknowledgement changes one status, and removes a delivery all of whose recipients are delivered or read |
| Retry.RetryService.GiveUp | src/gossip/retry_service.cpp:101-110 | marks and lists exactly the unanswered recipients |
| Retry.RetryService.MarkPending | src/gossip/retry_service.cpp:121-126 | announced recipients become pending |
| Retry.RetryService.CalculateBackoff | src/gossip/retry_service.cpp:197-210 | the capped power |
| Retry.RetryService.CheckRetries | src/gossip/retry_service.cpp:88-140 | due deliveries are retried or given up, the others untouched; one failure call for each given up, naming each unanswered recipient once |
| RetryMeaning.ReceiptMeans | src/gossip/retry_service.cpp:38-84 | by the text of the receipt and the status of its recipient: what changes, and when the delivery is over |
| RetryMeaning.EndsByReceipt | src/gossip/retry_service.cpp:54-84 | a delivery ends by a receipt only if it says delivered or read, and in a reachable state only delivered |
| RetryMeaning.KeepsByReceipt | src/gossip/retry_service.cpp:54-84 | failed and bounced end nothing |
| RetryMeaning.AllConfirm | src/gossip/retry_service.cpp:38-84 | when all recipients are pending and then confirm, in any order, the delivery is over and nobody is reported |
| RetryMeaning.TrackMeans | src/gossip/retry_service.cpp:15-34 | a new delivery has everybody announced and its first check after the initial timeout |
| RetryMeaning.CheckMeans | src/gossip/retry_service.cpp:88-140 | a check leaves a delivery alone, or counts one more retry and delays the next by it, or removes it when all are used up |
| RetryMeaning.BackoffMeans | src/gossip/retry_service.cpp:197-210 | the first delay is the initial timeout, each next one the multiplier times the last, all up to the cap |
| RetryMeaning.NotGivenUpBefore | src/gossip/retry_service.cpp:94-139 | in any run no delivery is given up before the first timeout and the delays of all its retries have passed |
| RetryRuns.Reachable | src/gossip/retry_service.cpp:15-140 | in every reachable state a nonempty delivery has retry count zero exactly while all its recipients are announced, and is never settled |
| RetryRuns.StepMoves | src/gossip/retry_service.cpp:38-140 | a delivery that stays keeps its recipients, each moved along an edge of the state machine or not at all |
| RetryRuns.GivingUpMoves | src/gossip/retry_service.cpp:101-119 | giving up moves recipients along edges exactly when a retry is configured, and then reports exactly the pending ones |
| RetryRuns.OnceAnswered | src/gossip/retry_service.cpp:38-140 | a recipient that answered is not asked again while its delivery is tracked |
| RetryRuns.StaysAtMost | src/gossip/retry_service.cpp:94-139 | the retry count is the number of due checks, so a delivery leaves by check maxRetries + 1 |
| RetryRuns.GivenUpBy | src/gossip/retry_service.cpp:94-139 | with punctual checks, a bound on the time at which a delivery is given up |
| RetryRuns.BackoffGrows | src/gossip/retry_service.cpp:197-210 | delays grow with the retry count |
| RetryRuns.FailsOnce | src/gossip/retry_service.cpp:101-119 | failure calls for a message, plus one if it is tracked, are at most the times it was handed in |
| RetryRuns.HowItLeaves | src/gossip/retry_service.cpp:71-139 | a delivery leaves settled and unreported, or by the last check with one report of exactly its pending recipients |
| Collections.Collection.BaseIsDurable | src/collection.cpp:39-44 | a write starts from the registered documents exactly when there is a head or the instance's index is empty |
| Collections.Collection.LoadFromStore | src/collection.cpp:39-74 | restores the registered index and descriptors and clears the cache; without a head nothing changes |
| Collections.Collection.PersistMeta | src/collection.cpp:79-110 | registers exactly the documents and descriptors the instance has |
| Collections.Collection.LoadDocument | src/collection.cpp:115-135 | the first cached document with the block asked for, or else that block's, which is cached under the id it names; with a cache that agrees with the index, the document the index names |
| Collections.Collection.InsertOne | src/collection.cpp:140-161 | from whatever state: adds to the map under the document's own or a new id and registers the result; a present id and a non-string id fail and change nothing |
| Collections.Collection.InsertMany | src/collection.cpp:166-193 | from whatever state: adds each document in turn and registers the result; a failure keeps the earlier ones in the instance, unregistered |
| Collections.InsertsOneMeans | src/collection.cpp:140-161 | without an id the generated one is used and the body kept, a text id is kept, a present one and anything else refused, with which result |
| Collections.InsertsManyMeans | src/collection.cpp:166-193 | insertMany succeeds exactly when the ids, own or else generated, are texts, different from each other and not in use; they are then the result, each document stands under its id with its body, and nothing else changes |
| Collections.InsertsManyFails | src/collection.cpp:166-193 | one that fails has inserted the documents before the first that cannot be, and says why it cannot |
| Collections.UpdatesOneMeans | src/collection.cpp:245-271 | one matching document is changed in its place if there is one, and nothing else |
| Collections.DeletesOneMeans | src/collection.cpp:318-334 | one matching document goes if there is one, and nothing else |
| Collections.ChangesAllMean | src/collection.cpp:276-363 | exactly the matching documents are changed, or gone, and they are counted |
| Collections.SelectsMeans | src/collection.cpp:213-240 | different matching documents, as many as skip leaves, and no more than the limit if it is positive, else one |
| Collections.Collection.FindOne | src/collection.cpp:198-208 | a matching document of those the instance sees, if there is one, provided none of them names the id of a different one; nothing is registered |
| Collections.Collection.Find | src/collection.cpp:213-240 | under the same condition, as many different matching documents as skip and limit leave |
| Collections.Collection.UpdateOne | src/collection.cpp:245-271 | under the same condition on the documents it starts from, updates one matching document in its place; in every state the ids in use stay and the result is registered if there was a match |
| Collections.Collection.UpdateMany | src/collection.cpp:276-313 | updates exactly the matching documents in their places and counts them, provided no document names an id in use that is not its own |
| Collections.UpdatedNamed | src/collection.cpp:276-313 | after updateMany all documents stand under their own ids exactly if the update keeps those of the matching ones |
| Collections.UpdatesOneNamed | src/collection.cpp:245-271 | the condition is exact: if the update changes the id of some matching document, updateOne can leave it under a foreign id |
| Collections.Collection.DeleteOne | src/collection.cpp:318-334 | under the condition of updateOne deletes one matching document; in every state one document or none |
| Collections.Collection.DeleteMany | src/collection.cpp:339-363 | under the same condition deletes exactly the matching documents and counts them; in every state as many as it counts |
| Collections.Collection.Drop | src/collection.cpp:368-378 | from whatever state: unregisters the head and forgets the documents |
| Collections.Collection.CreateIndex | src/collection.cpp:383-390 | from whatever state: adds a descriptor behind the registered ones, registers them and keeps the documents |
| Collections.Collection.DropIndex | src/collection.cpp:392-404 | removes all descriptors of a name and registers the others |
| Collections.Collection.ListIndexes | src/collection.cpp:406-408 | the descriptors the instance has, without loading |
| SharedCollections.Apply | src/collection.cpp:140-408 | one call, of any kind, does to the head and to its instance what `Does` says |
| SharedCollections.Interleave | src/collection.cpp:140-408 | any sequence of calls by any number of instances is a run of steps on the registered head and what each instance sees, as long as all documents have stood under their own ids |
| SharedCollections.Reopen | src/collection.cpp:32-74 | a new instance sees the registered documents and index descriptors |
| SharedCollections.DropThenInsert | src/collection.cpp:368-378 | an instance that outlives a drop by another registers its documents again |
| CollectionRuns.NamesKept | src/collection.cpp:140-408 | every call but an update that changes the id of a document it matches keeps all documents under their own ids |
| CollectionRuns.AllSteps | src/collection.cpp:140-408 | so in a run whose updates keep ids every call is a step |
| CollectionRuns.SerialRun | src/collection.cpp:140-408 | without a drop, or an insertMany that throws before anything is registered, every run acts on the registered documents as its calls one after the other on one map |
| CollectionRuns.ReadsAnswer | src/collection.cpp:198-240 | every read answers from the registered documents as they were when its instance last wrote or loaded |
| CollectionRuns.SinceGrows | src/collection.cpp:198-240 | that moment is not before the instance's own writes and does not go back from one read to the next |
| Renaming.ReadTwice | src/collection.cpp:115-135 | of two reads after a reload the second is wrong exactly if the first document names an id whose block is the one the second asks for and differs from it |
| Renaming.NoneMisleads | src/collection.cpp:115-135 | no two reads mislead exactly when no document names the id of a different one, so in particular when all stand under their own ids |
| Renaming.ReadAll | src/collection.cpp:115-135 | then any number of reads in any order are right |
| Renaming.Renamed | src/collection.cpp:245-271 | A renamed to B, reload, read A, read B: the answer is the document of A |
| FixedWidth.ReadFixed | src/ecies.cpp:93-110 | a number written in w bytes reads back modulo 256^w |
| Ecies.EncryptInternal | src/ecies.cpp:287-398 | the single-recipient frame, and the error for a key that is no point |
| Ecies.EncryptMultiple | src/ecies.cpp:33-124 | the multi-recipient frame, and each error |
| Ecies.Decrypt | src/ecies.cpp:401-548 | what the cursor makes of any bytes, with each error |
| Ecies.FindKey | src/ecies.cpp:443-491 | the recipient loop keeps the first key that opens and ends after the list |
| Ecies.SingleRoundTrip | src/ecies.cpp:287-548 | Basic and WithLength frames open to the plaintext, WithLength with anything appended |
| FrameLayout.SingleLayout | src/ecies.cpp:363-398 | byte by byte where each field of a frame for one recipient stands, and what it is sealed with |
| FrameLayout.MultipleLayout | src/ecies.cpp:33-124 | byte by byte where each field of a frame for several stands: an entry of 54 bytes for each recipient, in order, the tag and the message |
| FrameLayout.Refused | src/ecies.cpp:401-548 | what decryption refuses before it opens anything, and with which error |
| Ecies.ScanEntries | src/ecies.cpp:96-112 | scanning the written entries yields the first key that opens and stops after them |
| Ecies.MultipleOpens | src/ecies.cpp:437-516 | decrypting a multi-recipient frame is exactly what the first opening entry makes of it, NoKey if none opens |
| Ecies.MultipleRoundTrip | src/ecies.cpp:33-124 | a listed recipient gets the plaintext exactly if the first key that opens opens the message, so always if no other entry opens to a different key |
| BulletinBoards.BulletinBoard.PublishVote | src/bulletin_board.cpp:13-37 | appends one entry with the fields given, the root of those before it (32 zeros for the first), the hash of its data and the signature of that hash, and keeps the board valid |
| BulletinBoards.BulletinBoard.ComputeMerkleRoot | src/bulletin_board.cpp:151-176 | the level-by-level loops compute the root |
| BulletinBoards.BulletinBoard.LevelUp | src/bulletin_board.cpp:164-172 | one level: pairs hashed, an odd last node promoted |
| BulletinBoards.BulletinBoard.VerifyMerkleTree | src/bulletin_board.cpp:102-113 | true exactly when each entry carries the root of those before it, so always after publishing |
| BulletinBoards.BulletinBoard.VerifyEntry | src/bulletin_board.cpp:86-95 | true exactly when hash and signature fit, so for every published entry |
| BoardLayout.DataLayout | src/bulletin_board.cpp:207-221 | where each field stands in the data an entry's hash covers, with the ciphertexts in their order |
| BulletinBoards.RootBinds | src/bulletin_board.cpp:151-176 | different lists of hashes of equal length have different roots, unless something hashed on the way to the one root collides with something hashed on the way to the other |
| BoardSizes.RootSplit | src/bulletin_board.cpp:151-176 | the level-by-level root is that of a tree split at the largest power of two below the number of leaves |
| BoardSizes.CountsNeeded | src/bulletin_board.cpp:151-176 | whatever the hash, any two sizes have lists of hashes with the same root |
| BoardSizes.DataCountBinds | src/bulletin_board.cpp:151-176 | different data, also in number, have different roots, unless something hashed for the one collides with something hashed for the other or some data are those of an inner node |
| BoardSizes.BoardBinds | src/bulletin_board.cpp:13-37 | two published boards of any sizes have the same root exactly when they hold the same data, provided nothing hashed for them collides or hashes to zeros and no entry has the data of an inner node |
| BoardSizes.NotMistaken | src/bulletin_board.cpp:13-37 | entries whose data are not as long as two hashes never have the data of an inner node |
| BoardSizes.OneForTwo | src/bulletin_board.cpp:13-37 | without a collision of the two, the only entry of a board gives it the root of a board of two exactly if its data are their hashes |
| BoardSizes.SizesConfused | src/bulletin_board.cpp:13-37 | a published board and its continuation by one entry with the same root, though nothing hashed for them collides or hashes to zeros |
| BulletinBoards.LastRootBinds | src/bulletin_board.cpp:102-113 | two verified boards of equal size whose last entries carry the same root agree on all earlier entry hashes, or something hashed for the one root collides with something hashed for the other |
| BulletinBoards.DataBinds | src/bulletin_board.cpp:207-221 | the hashed data of entries with fields of equal lengths agree exactly when the entries do |
| BulletinBoards.DataAmbiguous | src/bulletin_board.cpp:207-221 | with other lengths two different entries can have the same data |

## Left out

- Shamir.ShamirSecretSharing.Combine: requires shares whose headers name a size from 3 to 20, all the same, with share
  numbers of that size and equally long data; on others the source reads outside its tables or interpolates ragged columns.
- Shamir.ShamirSecretSharing.Parse: requires a header size from 3 to 20 for the same reason.
- Collections.Collection.FindOne: where a document names the id of a different one, which only an update that changes ids can
  bring about, no more is promised than that the answer matches; `Renaming` says exactly when a read then goes wrong.
- Collections.Collection.UpdateMany: promises the result only where no document names another id in use, for the same reason.
- SharedCollections.Interleave: calls are taken whole, within one process; cross-process locking is not modelled, and once an
  update has given a document another id only that the state stays readable is promised.
- Paillier.PaillierPublicKey.Encrypt: the random r is an argument; what its being a unit decides is `PaillierExactness.UnitsReturn`.
- PrimeSearch.GeneratePrime: requires a prime length of at least two bits; at one bit the source tests the number 1, which
  does not end.
- EncryptedPolls.RankedPoll: instant runoff only, with ballots of at most 255 entries, primes with a product above 255, and
  random numbers that are units; without these conditions the lemmas of `BallotCodec` and `PaillierExactness` apply.
- Aggregation.Aggregator.GetTally: one class stands for the three aggregators, without their constructors' level checks and the level's name in the error text,
  and requires tallies with equally many choices, without which the source reads past a vector.
- Ecies.Decrypt: a length prefix larger than what follows, which the source follows past its buffer, is an error here.
- Ecies.MultipleRoundTrip: that an entry sealed for another key does not open is a condition, since no cipher excludes it.
- BoardSizes.BoardBinds: no hash to 32 bytes is injective, so collisions are excluded, or found, among the inputs of the two roots only.
- Gossip.GossipEngine.BatchFlush: requires a batch size other than zero, with which the source does not end.
- Gossip.GossipEngine.HandleAnnouncement: hexadecimal decoding and ECDSA are one argument, the verifier, which can also throw.
- Gossip.GossipEngine.SelectRandomPeers: says which selections are possible, not how likely each is.
- GossipNetwork.Quiesces: assumes fanouts that are not negative, as the configuration check demands.
- Random numbers, clocks, timestamps and keys are arguments; sockets, timers, JSON text, envelopes and disk files are not modelled.
- OpenSSL, JSON and filesystem internals: big-number calls are integer operations, serialised documents are the values they encode.
- The tallies' byte strings: counts are numbers here, which `BallotCodec.IntRoundTrip` says is the same below 2^63.
- Integer widths where they cannot be reached: sequence numbers, retry counts and strings are unbounded.
- Elliptic-curve Diffie-Hellman seed derivation, and HMAC-DRBG: the bytes they deliver are arguments.
- getRandomFactor, which does not recover r, and the precinct aggregator's getTally, which assigns where it should add.
- Plurality, approval, weighted, scored, quadratic, two-round, STAR, consensus and consent-based tallies: simpler loops, or not round-tripping.
- The tally proof and export of the board, entries by poll, poll bookkeeping, event and audit logs, block sizes, CBL headers.
- Query and update operators: filters and updates are arbitrary functions.
- The other announce calls of the gossip engine, which only queue; encryption of batches.
- Concurrent calls on one object: calls are taken one at a time, as the source's locks arrange.
