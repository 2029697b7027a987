# The packet wire stack and the state machines around it

A model in Dafny of the network code under `UDP01/OldCode` and `Common`, with
proofs about it. Each module stands for one part of that code.

- `Bits`, `Serialize`, `NetworkUtils`: bit operations on integers, primitives in
  network byte order in a buffer at a moving offset, and the quantisation of
  angles.
- `Geometry`, `Rotation`: positions in 63 bits and rotations in 30, with their
  error bounds and the exact codes that survive a round trip.
- `Packets`, `PacketObjects`: the four packet classes by value, and as mutable
  objects that are written into and read from a buffer.
- `Framing`: what the receive loop does with the bytes of one read, by value.
  `EndToEnd` follows a movement packet from `Set` to `Get` through it.
- `CircularBuffers`, `Pools`, `PacketFactory`: the ring buffer, the packet pools
  by value with what every run of them conserves, and the factory on the heap.
- `ReceiveLoop`, `TcpConnection`: the frame and the connection on the heap. Their
  methods are proved to go through the same steps as the loop by value.
- `Server`, `Client`, `Handshake`: the connection lists of the server, the actors
  of the client and the UDP handshake, each as a machine by value with theorems
  over all runs, and as a class whose methods are proved to take its steps.
- `CommonTypes`, `FixedStrings`, `Base64`: strings, string lists, tables, strings
  of fixed capacity and base64, each with the exact condition under which
  reading undoes writing.

Conventions. A specification function says by value what a method does, and the
lemmas are about that function; layouts, ids, time limits and the step of each
event are stated besides in literal bytes, numbers and fields. Memory is a sequence
of bytes. The receive loop may
look at up to 32 bytes behind those received: the length field that its guard
reads may lie there, and a class may be longer than the length announced. `mem`
therefore goes on behind `total`, with arbitrary content. Each completion handler
is one step, except where a theorem says otherwise. The null pointer that a pool
may give appears as a result value where the source would dereference it. `long`
has 32 bits and the machine is little-endian unless a lemma speaks of both
orders.

Where the code falls short of what it is for, the exact condition is proved:

- A position is within 1/256 only for magnitudes below 4096, since the field is
  masked to 20 bits (`Geometry.AxisError`).
- A frame is understood only when the stored pair is that of the class
  (`Framing.FrameFaithful`).
- The handshake fails when an empty datagram arrives too early, and `DataSend`
  emits empty datagrams after the handshake (`Handshake.HandshakeSafety`). An end
  that accepts before it sends never emits its hello, so the other one never
  completes (`Handshake.BothCanComplete`).
- A pool stays in order only if each packet is released once for each time it is
  handed out (`Pools.ReturnExact`); the source does not check this.
- The receive loop decodes stale bytes when a size field announces less than the
  class needs (`Framing.StaleBytesUnread`, `Framing.StaleBytesDecoded`).
- `HandleReschedule` is safe against other handlers only if none of them appends
  between the end of its walk and the clearing of the list
  (`Server.UnlockedReschedule`).
- A connected client may have a closed socket (`Client.ConnectedIsNotOpen`).
- Strings above 3071 characters or with a NUL, tables that are not rectangular
  and bounded strings above 65535 characters do not come back.
- The comment of `base64_decode` promises the first character that could not be
  converted; the code returns it only after whole groups
  (`Base64.ReturnsFirstBad`).

## Model

| member | source | states |
|---|---|---|
| Bits.AndBit | UDP01/OldCode/Packets/MovementPacket.cpp:195-241 | Bitwise and, bit by bit, for negative numbers too: a bit is set just when it is set in both |
| Bits.OrBit | UDP01/OldCode/Packets/MovementPacket.cpp:236-241 | Bitwise or, bit by bit: a bit is set just when it is set in one of both |
| Serialize.HtonllHalves | UDP01/OldCode/Packets/Serialize.cpp:20-28 | `htonll` on a little-endian machine: the high half of the result is the swapped low half of the input, and the other way round |
| Serialize.HtonllNetworkOrder | UDP01/OldCode/Packets/Serialize.cpp:20-33 | On either byte order of the machine, storing what `htonll` gives puts the eight bytes of the value into memory most significant first |
| Serialize.HtonllInvolution | UDP01/OldCode/Packets/Serialize.cpp:37-40 | `ntohll` undoes `htonll`, on either byte order |
| Serialize.SwapNetworkOrder | UDP01/OldCode/Packets/Serialize.h:87-127 | The same for `htons` and `htonl`: on either byte order of the machine the stored word is in network order |
| Serialize.ByteOrder16 | UDP01/OldCode/Packets/Serialize.h:87-99 | Network order in numbers: 256 times the first byte plus the second is the value, and the little-endian image has them exchanged |
| Serialize.ByteOrder32 | UDP01/OldCode/Packets/Serialize.h:101-127 | The same for four bytes, weighted 2^24, 2^16, 2^8 and 1 |
| Serialize.ByteOrder64 | UDP01/OldCode/Packets/Serialize.h:129-141 | The same for eight bytes, weighted from 2^56 down to 1 |
| Serialize.TwosComplement | UDP01/OldCode/Packets/Serialize.h:117-126 | The pattern of a signed value is the value, or the value plus 2^32, and the one that reads back as it |
| Serialize.SpliceAt | UDP01/OldCode/Packets/Serialize.h:80-84 | A write puts its bytes at the offset and leaves every other byte as it was |
| Serialize.Decode16 | UDP01/OldCode/Packets/Serialize.h:87-99 | The two bytes of a U16 in network order, most significant first, read back as that U16 |
| Serialize.Encode16 | UDP01/OldCode/Packets/Serialize.h:87-99 | Any two bytes are the network-order bytes of the U16 they read as, 256 times the first plus the second |
| Serialize.Decode32 | UDP01/OldCode/Packets/Serialize.h:101-127 | The same for four bytes |
| Serialize.Encode32 | UDP01/OldCode/Packets/Serialize.h:101-127 | Any four bytes are the network-order bytes of the U32 they read as |
| Serialize.Decode64 | UDP01/OldCode/Packets/Serialize.h:129-141 | The same for eight bytes |
| Serialize.Encode64 | UDP01/OldCode/Packets/Serialize.h:129-141 | Any eight bytes are the network-order bytes of the U64 they read as |
| Serialize.OutU8 | UDP01/OldCode/Packets/Serialize.h:80-84 | The byte is written at the offset, nothing else changes, and the offset advances by one |
| Serialize.InU8 | UDP01/OldCode/Packets/Serialize.h:75-79 | The byte at the offset is read, and the offset advances by one |
| Serialize.OutU16 | UDP01/OldCode/Packets/Serialize.h:94-98 | Through `htons` and a machine store, the two bytes at the offset become the value in network order; 256 times the first plus the second is the value; nothing else changes |
| Serialize.InU16 | UDP01/OldCode/Packets/Serialize.h:89-93 | The value read is 256 times the byte at the offset plus the next one |
| Serialize.OutU64 | UDP01/OldCode/Packets/Serialize.h:136-140 | The same for eight bytes |
| Serialize.InU64 | UDP01/OldCode/Packets/Serialize.h:131-135 | The same for eight bytes |
| Serialize.OutInt | UDP01/OldCode/Packets/Serialize.h:122-126 | The two's complement bytes of a signed value, in network order: weighted 2^24, 2^16, 2^8 and 1 they give the value, plus 2^32 if it is negative; nothing else changes |
| Serialize.InInt | UDP01/OldCode/Packets/Serialize.h:117-121 | The signed value whose two's complement bytes, so weighted, are at the offset |
| NetworkUtils.Wrap | UDP01/OldCode/NetworkUtils.h:17-24 | The result lies in `[0, range)` and differs from the value by a multiple of the range, also for negative values |
| NetworkUtils.AngleError | UDP01/OldCode/NetworkUtils.h:30-49 | For every angle whose scaled value fits an int, negative and multi-turn ones included, encoding and decoding moves it by less than 360/range degrees on the circle |
| NetworkUtils.AngleTowardsZero | UDP01/OldCode/NetworkUtils.h:30-49 | What encoding loses it loses towards zero, for negative angles too |
| NetworkUtils.HalfDegreeBelow | UDP01/OldCode/NetworkUtils.h:37-49 | The code of -0.5 degrees is 1023 |
| NetworkUtils.DegreesOf | UDP01/OldCode/NetworkUtils.h:30-35 | A code times 360 is its degrees times the range |
| NetworkUtils.CodeFixedPoint | UDP01/OldCode/NetworkUtils.h:30-49 | Every code in range is a fixed point of decoding and encoding again |
| NetworkUtils.GetBitPosition | UDP01/OldCode/NetworkUtils.h:50-58 | The loop returns the lowest set bit of a 32-bit input, or -1 just for zero |
| NetworkUtils.IsPowerOfTwoExact | UDP01/OldCode/NetworkUtils.h:26-29 | For every int but the least, whose subtraction overflows, the test holds just for zero and the powers of two; no negative int passes |
| Geometry.PackShape | UDP01/OldCode/Packets/MovementPacket.cpp:218-243 | Masks, shifts and ors put the three magnitudes and the three signs into disjoint bit fields of one number below 2^63 |
| Geometry.PositionBits | UDP01/OldCode/Packets/MovementPacket.cpp:218-243 | The packed number: the magnitudes of x, y and z modulo 2^20, times 2^43, 2^23 and 2^3, plus 4, 2 and 1 for negative x, y and z |
| Geometry.UnpackedBits | UDP01/OldCode/Packets/MovementPacket.cpp:195-217 | Of any 64-bit code: 256 times each axis is the 20-bit digit at that place, negated when its sign bit is set |
| Geometry.MagnitudeIs | UDP01/OldCode/Packets/MovementPacket.cpp:218-243 | A magnitude is 256 times the absolute value, rounded down; it fits an int just below 2^23 |
| Geometry.Decompose | UDP01/OldCode/Packets/MovementPacket.cpp:195-217 | The masks and shifts of `Unpack` find exactly those fields again |
| Geometry.Recompose | UDP01/OldCode/Packets/MovementPacket.cpp:195-243 | A code with bit 63 clear is made up of its fields |
| Geometry.PositionAxesIndependent | UDP01/OldCode/Packets/MovementPacket.cpp:195-243 | Each axis of what is unpacked depends on that axis of the input alone |
| Geometry.AxisError | UDP01/OldCode/Packets/MovementPacket.cpp:195-243 | An axis comes back no larger in magnitude and never with the opposite sign, and within 1/256 if and only if its magnitude is below 4096 |
| Geometry.AxisOverflows | UDP01/OldCode/Packets/MovementPacket.cpp:195-243 | The first magnitude beyond the field, 4096, comes back as zero |
| Geometry.PositionCodeSurvives | UDP01/OldCode/Packets/MovementPacket.cpp:195-243 | Unpacking and packing again gives the same code if and only if bit 63 is clear and no sign bit stands on a zero field |
| Rotation.Shifts | UDP01/OldCode/NetworkUtils.h:69-71 | The shift constants computed from the quantisations are the numbers of bits |
| Rotation.Unpack | UDP01/OldCode/Packets/MovementPacket.cpp:158-168 | The masked subtractions of the method compute the specification function |
| Rotation.PackIs | UDP01/OldCode/Packets/MovementPacket.cpp:152-156 | The three codes as digits: x times 2^(bitsY + bitsZ), plus y times 2^bitsZ, plus z |
| Rotation.EncodedBits | UDP01/OldCode/Packets/MovementPacket.cpp:136-156 | With the shipped constants: the code of x times 2^20, plus that of y times 2^10, plus that of z |
| Rotation.DecodedBits | UDP01/OldCode/Packets/MovementPacket.cpp:143-168 | Of any int: x and y are the ten-bit digits at 2^20 and 2^10, and z is all the rest, each converted to degrees |
| Rotation.UnpackInvertsPack | UDP01/OldCode/Packets/MovementPacket.cpp:152-168 | For any power-of-two quantisations, unpacking a packed triple in range gives the triple |
| Rotation.PackInvertsUnpack | UDP01/OldCode/Packets/MovementPacket.cpp:152-168 | Packing what was unpacked gives the value for every int, because z takes the residue |
| Rotation.UnpackInRange | UDP01/OldCode/Packets/MovementPacket.cpp:158-168 | The unpacked triple is in range if and only if the value is a code |
| Rotation.RotationError | UDP01/OldCode/Packets/MovementPacket.cpp:136-150 | Each angle comes back less than 360/1024 degrees off on the circle |
| Rotation.RotationCodeSurvives | UDP01/OldCode/Packets/MovementPacket.cpp:136-168 | For every int, decoding and encoding again gives the same value if and only if it is a code, that is from 0 up to 2^30 |
| Packets.Lengths | UDP01/OldCode/Packets/BasePacket.cpp:124-235 | Payloads are 7, 9, 21 and 29 bytes long, and a frame three more |
| Packets.ClassOf | UDP01/OldCode/Packets/PacketFactory.cpp:21-24 | A pair names a class just when it is the registered pair of that class |
| Packets.HeaderPlaces | UDP01/OldCode/Packets/BasePacket.cpp:164-175 | Each header field at its place in the payload: type, subtype, major and minor version, product, and the instance in two bytes |
| Packets.BodyPlaces | UDP01/OldCode/Packets/MovementPacket.cpp:10-77 | Each body field at its place behind the header: connection id or tick at 7, position at 9, rotation at 17, movement at 21 |
| Packets.FrameBytes | UDP01/OldCode/Packets/BasePacket.cpp:224-235 | A frame begins with the byte 3 and the number of bytes behind its first three, in two bytes; then comes the payload, which for a well-formed packet begins with the pair of its class |
| Packets.DecodeEncode | UDP01/OldCode/Packets/MovementPacket.cpp:10-77 | Decoding the payload of any packet of any class gives the packet |
| Packets.EncodeDecode | UDP01/OldCode/Packets/MovementPacket.cpp:10-77 | Encoding what was decoded from arbitrary bytes of the class length gives those bytes |
| Packets.FramesSnoc | UDP01/OldCode/Packets/Serialize.h:200-207 | A stream of frames grows by a frame at its end |
| PacketObjects.PacketObject.constructor | UDP01/OldCode/Packets/BasePacket.h:102-102 | A new packet of any class stores the pair of its class, the protocol version 51.0 and zeros |
| PacketObjects.PacketObject.BaseOut | UDP01/OldCode/Packets/BasePacket.cpp:164-175 | Each header field is written at its place behind the offset, and no other byte changes |
| PacketObjects.PacketObject.BaseIn | UDP01/OldCode/Packets/BasePacket.cpp:151-162 | Each header field is read from its place behind the offset |
| PacketObjects.PacketObject.SerializeOut | UDP01/OldCode/Packets/MovementPacket.cpp:70-77 | Of every class: exactly the payload of the packet is written at the offset, and no other byte changes |
| PacketObjects.PacketObject.SerializeIn | UDP01/OldCode/Packets/MovementPacket.cpp:62-69 | Whatever the object held before, it then holds the packet encoded at the offset, as a new one would |
| PacketObjects.PacketObject.SetMovement | UDP01/OldCode/Packets/MovementPacket.cpp:78-91 | Each compressed field becomes the code of its own vector, and nothing else changes |
| PacketObjects.PacketObject.GetMovement | UDP01/OldCode/Packets/MovementPacket.cpp:92-98 | What is returned is what the compressed fields decode to |
| PacketObjects.PacketObject.WriteTo | UDP01/OldCode/Packets/BasePacket.h:105-111 | All header fields but the stored pair are copied, and neither body changes |
| PacketObjects.FieldPlaces | UDP01/OldCode/Packets/MovementPacket.cpp:10-77 | Where each field of an object, of any class, stands in the payload that is written |
| Framing.DrainSound | UDP01/OldCode/Socket/Socket.cpp:215-228 | From arbitrary bytes, every decoded packet is well formed and is the payload found where the offset stood, one class length after the other |
| Framing.DrainBounded | UDP01/OldCode/Socket/Socket.cpp:218-228 | From arbitrary bytes, every round advances by at least ten whatever the size field says, so the rounds are bounded by the length |
| Framing.DrainStops | UDP01/OldCode/Socket/Socket.cpp:218-228 | From arbitrary bytes, the loop stops just where the guard says no or where the probed pair has no pool or an exhausted one: the decoded packets of that class are as many as its pool held |
| Framing.GuardIs | UDP01/OldCode/Packets/BasePacket.cpp:196-205 | The guard in bytes: 256 times the byte at offset plus one, plus the next, is at most what was received behind the first three bytes |
| Framing.StaleBytesUnread | UDP01/OldCode/Packets/BasePacket.cpp:196-222 | If every size field visited announces at least the length of its class, nothing behind the received bytes is decoded, and the outcome is the same whatever stale bytes follow |
| Framing.StaleBytesDecoded | UDP01/OldCode/Packets/BasePacket.cpp:196-222 | An input that decodes stale bytes: three received bytes with a size of zero, and the pair of a movement packet behind them |
| Framing.PartialFrame | UDP01/OldCode/Packets/BasePacket.cpp:196-205 | Every strict prefix of a frame announces more bytes than there are |
| Framing.IncompleteStops | UDP01/OldCode/Packets/BasePacket.cpp:196-205 | The guard refuses bytes, whatever stale bytes follow them, just when they hold less than they announce |
| Framing.ReceiveFrames | UDP01/OldCode/Socket/Socket.cpp:215-228 | The main theorem: over any frames of well-formed packets followed by an incomplete one and any stale bytes, the loop yields exactly those packets in order and stops where the incomplete one starts, if and only if the pools hold enough objects of each class |
| Framing.FrameFaithful | UDP01/OldCode/Packets/BasePacket.cpp:207-235 | A frame comes back as its packet if and only if the stored pair of the packet is the pair of its class |
| EndToEnd.PositionError | UDP01/OldCode/Packets/MovementPacket.cpp:185-243 | All three axes come back within 1/256 if and only if all were in range |
| EndToEnd.SetThenGet | UDP01/OldCode/Packets/MovementPacket.cpp:78-98 | Setting and getting a movement keeps header and tick; positions within 1/256 exactly when in range, rotation within 360/1024 degrees |
| EndToEnd.MovementEndToEnd | UDP01/OldCode/Packets/MovementPacket.cpp:62-98 | The same through framing, any traffic before and after it, and the receive loop |
| CircularBuffers.PushedAllKeepsNewest | UDP01/OldCode/Packets/PacketFactory.cpp:38-44 | However much is put, the newest elements up to the capacity remain, oldest first |
| CircularBuffers.CircularBuffer.Put | UDP01/OldCode/Packets/PacketFactory.cpp:92-96 | The element joins the end of the queue; a full ring drops its oldest |
| CircularBuffers.CircularBuffer.Get | UDP01/OldCode/Packets/PacketFactory.cpp:119-122 | The oldest element leaves; an empty ring gives the null value and stays empty |
| Pools.TakeKeepsPool | UDP01/OldCode/Packets/PacketFactory.cpp:116-126 | Taking from a pool that conserves its objects keeps that, and hands out an object that nobody holds |
| Pools.ReturnExact | UDP01/OldCode/Packets/PacketFactory.cpp:88-99 | A returned object, whatever it is, leaves the pool conserved if and only if it was held, or is the oldest one of a full pool, which drops it for itself |
| Pools.DoubleRelease | UDP01/OldCode/Socket/ClientSocket.h:272-281 | The second release of the same packet leaves it in the pool twice, and the pool no longer conserves its objects |
| Pools.CreateGives | UDP01/OldCode/Packets/PacketFactory.cpp:116-126 | A request gives an object of the requested pair that nobody held before, or null just when there is no pool or it is empty |
| Pools.CreateConserves | UDP01/OldCode/Packets/PacketFactory.cpp:116-126 | Conservation across `Create` |
| Pools.CreateTakesOldest | UDP01/OldCode/Packets/PacketFactory.cpp:116-126 | What a request gives is the oldest free object of the pool of its pair; no other pool and no registration changes |
| Pools.ReleaseConserves | UDP01/OldCode/Packets/PacketFactory.cpp:88-99 | `Release` of any packet keeps conservation if and only if there is no pool for its class or it returns well; a held packet joins the end of the pool of its class; the result is false, and nothing changes, just when there is none |
| Pools.InitConserves | UDP01/OldCode/Packets/PacketFactory.cpp:28-47 | Conservation across `InitFactory`, also when it is repeated |
| Pools.RunConserves | UDP01/OldCode/Packets/PacketFactory.cpp:28-138 | Over every run of registering, initialising, creating by pair or name, releasing any packets and shutting down: in each pool free and held objects are disjoint and together exactly its hundred objects, all reporting its pair, throughout the run if and only if every release in it is proper |
| Pools.RunBounded | UDP01/OldCode/Packets/PacketFactory.cpp:88-99 | In every run, whatever it releases, no pool holds more than a hundred objects |
| Pools.OwnedStays | UDP01/OldCode/Packets/PacketFactory.cpp:28-47 | In any run without a shutdown a pool keeps the same hundred objects |
| Pools.HeldUntilReleased | UDP01/OldCode/Packets/PacketFactory.cpp:88-126 | In any such run a packet that is held stays held until it is released |
| Pools.OutUntilReleased | UDP01/OldCode/Packets/PacketFactory.cpp:57-126 | A packet that was handed out is in no pool until it is released, in any run, even over a shutdown and a new initialisation |
| Pools.HandedOutDistinct | UDP01/OldCode/Packets/PacketFactory.cpp:116-126 | From the moment a packet is handed out until it is released, no request in any run, shutdowns included, returns the same object |
| Pools.RequestsAreMet | UDP01/OldCode/Packets/PacketFactory.cpp:116-126 | In any run whose releases are proper a request is met, with an object of the right pair, just when fewer than a hundred are out |
| Pools.FreeAndHeld | UDP01/OldCode/Packets/PacketFactory.cpp:28-47 | Free and held objects of a pool number one hundred |
| Pools.RegisteredOnce | UDP01/OldCode/Packets/PacketFactory.cpp:68-83 | The first registration of a pair, and of a name, is entered and stays; no other entry changes; the result is true just when something was entered |
| Pools.RegisteredServes | UDP01/OldCode/Packets/PacketFactory.cpp:28-138 | After registering a class and initialising, a request for its pair gives an object of that pair, and a request by the name is a request for the pair first registered under it |
| Pools.ShutdownForgets | UDP01/OldCode/Packets/PacketFactory.cpp:57-66 | After a shutdown nothing is handed out, by pair or by name, and everything can be registered again |
| PacketFactory.PacketMethodFactory.Register | UDP01/OldCode/Packets/PacketFactory.cpp:68-83 | Enters a create function under its pair and its name unless there is one; true just when something was entered; what is entered is the class given |
| PacketFactory.PacketMethodFactory.Create | UDP01/OldCode/Packets/PacketFactory.cpp:116-126 | The oldest object of the pool of that pair, or null |
| PacketFactory.PacketMethodFactory.CreateByName | UDP01/OldCode/Packets/PacketFactory.cpp:101-113 | The same, for the class registered under the name |
| PacketFactory.PacketMethodFactory.Release | UDP01/OldCode/Packets/PacketFactory.cpp:88-99 | The object joins the pool of its class; false just when there is none |
| PacketFactory.PacketMethodFactory.Shutdown | UDP01/OldCode/Packets/PacketFactory.cpp:57-66 | All maps are empty; what was handed out stays with its holders |
| PacketFactory.PacketMethodFactory.IsPoolAlreadyAllocated | UDP01/OldCode/Packets/PacketFactory.cpp:49-55 | True just when the pair has a pool |
| PacketFactory.PacketMethodFactory.FillRing | UDP01/OldCode/Packets/PacketFactory.cpp:36-44 | A ring of a hundred new, distinct objects of one class |
| PacketFactory.PacketMethodFactory.InitFactory | UDP01/OldCode/Packets/PacketFactory.cpp:28-47 | Every registered pair without a pool gets one of new objects that did not exist before, every other pool stays as it is |
| ReceiveLoop.CreateFails | UDP01/OldCode/Packets/PacketFactory.cpp:116-126 | The factory gives no object just when the loop by value finds no pool for the pair or an empty one |
| ReceiveLoop.TakeIsSound | UDP01/OldCode/Socket/Socket.cpp:218-228 | A received packet is in no other place of the queue, and the queue holds what it took |
| ReceiveLoop.Tracing | UDP01/OldCode/Socket/Socket.cpp:215-228 | The rounds over pooled objects are, step by step, the loop by value on the stock of the pools |
| ReceiveLoop.PoppedIsSound | UDP01/OldCode/Socket/Socket.cpp:259-264 | A dequeued packet goes to the end of the pool named by the pair that it was received with, without an overflow; the rest of the queue still holds its objects |
| ReceiveLoop.PoppedIsFirst | UDP01/OldCode/Socket/Socket.cpp:259-264 | It is the first of the queue, and those behind it keep their order and their contents |
| ReceiveLoop.TraceGrown | UDP01/OldCode/Socket/Socket.cpp:218-228 | Over the rounds of a read, what was held stays held, what was queued stays queued, and what joins the queue was nobody's |
| ReceiveLoop.ReadKeepsBeside | UDP01/OldCode/Socket/Socket.cpp:215-228 | Two connections on one factory share no packet, and a read on one keeps that |
| ReceiveLoop.PopKeepsBeside | UDP01/OldCode/Socket/Socket.cpp:259-264 | So does taking a packet from a queue |
| TcpConnection.SizePacket.IsRemainingBufferBigenough | UDP01/OldCode/Packets/BasePacket.cpp:196-205 | The guard by value, read from the buffer |
| TcpConnection.SizePacket.SerializeOut | UDP01/OldCode/Packets/BasePacket.cpp:224-235 | Exactly the frame is written, with the back-patched length that of the payload, and no byte outside it changes |
| TcpConnection.SizePacket.SerializeIn | UDP01/OldCode/Packets/BasePacket.cpp:207-222 | The object that `Create` gives for the probed pair holds the packet decoded from the same offset; without one the method says so where the source dereferences null |
| TcpConnection.OutFrames | UDP01/OldCode/Packets/Serialize.h:200-207 | Writing several packets writes exactly their concatenated frames |
| TcpConnection.TCPConnection.ReceiveNext | UDP01/OldCode/Socket/Socket.cpp:218-228 | One round enters one packet into the queue; no packet already there changes |
| TcpConnection.TCPConnection.ReceiveAll | UDP01/OldCode/Socket/Socket.cpp:215-228 | The loop over the heap goes through the states of the loop over values |
| TcpConnection.TCPConnection.HandleRead | UDP01/OldCode/Socket/Socket.cpp:215-228 | After a read the queue has grown by exactly the packets that the loop by value yields; all packets held before, here or elsewhere, stay held and unchanged, and so does the buffer; it ends at the guard just when that loop does |
| TcpConnection.TCPConnection.DequeMessage | UDP01/OldCode/Socket/Socket.cpp:259-264 | The oldest packet leaves the queue and returns to its pool; all other packets, here or elsewhere, keep their content |
| TcpConnection.HandleReadBeside | UDP01/OldCode/Socket/Socket.cpp:215-228 | A read on one connection changes neither the queue of another one on the same factory nor any packet in it, and they still share none |
| TcpConnection.DequeMessageBeside | UDP01/OldCode/Socket/Socket.cpp:259-264 | The same for taking a packet from a queue |
| TcpConnection.TCPConnection.SendMessage | UDP01/OldCode/Socket/Socket.cpp:246-257 | The bytes sent are exactly the frame of the packet |
| Server.RunSafe | UDP01/OldCode/Socket/Socket.cpp:63-125 | In every interleaving of accepts, failed accepts, reschedules, read completions, read errors, finished parses and cleanups: each accepted open connection is in exactly one place once, any other in none, and the list of connections is exactly right |
| Server.BuffersAreExclusive | UDP01/OldCode/Socket/Socket.cpp:207-243 | At most one read is outstanding on a connection and never while its buffer is parsed; nothing is started on a closed one |
| Server.RescheduleStartsReads | UDP01/OldCode/Socket/Socket.cpp:98-107 | After a reschedule the open connections are just those that read or are parsed |
| Server.CleanupKeepsOpen | UDP01/OldCode/Socket/Socket.cpp:109-125 | Cleanup keeps exactly the open connections, in the order of acceptance |
| Server.AcceptedJoins | UDP01/OldCode/Socket/Socket.cpp:63-90 | An accepted connection is the one listened for; it joins the end of the connections and of the awaiting list |
| Server.AcceptFailedIsLost | UDP01/OldCode/Socket/Socket.cpp:63-90 | After a failed accept the next connection is listened for, and the failed one is in no list in any continuation |
| Server.LifeCycle | UDP01/OldCode/Socket/Socket.cpp:92-107 | An awaiting connection reads after the reschedule, a completed read is parsed, and what was parsed waits at the end of the list |
| Server.ReadErrorCloses | UDP01/OldCode/Socket/Socket.cpp:232-240 | A read error closes its connection: it is in no place afterwards, and the next cleanup removes it |
| Server.OthersStay | UDP01/OldCode/Socket/Socket.cpp:63-125 | A handler of one connection leaves the place of every other as it is |
| Server.FirstIds | UDP01/OldCode/Socket/Socket.h:119-119 | The ids count from 1024, and wrap to 0 behind 65535 |
| Server.IdsCollide | UDP01/OldCode/Socket/Socket.h:119-119 | The 16-bit id is shared by two connections just when their numbers differ by a multiple of 65536 |
| Server.UnlockedReschedule | UDP01/OldCode/Socket/Socket.cpp:98-107 | Without atomicity, with other handlers at any point while the list is walked and before it is cleared: the result is safe if and only if between the end of the walk and the clearing there is no successful accept and no end of a parse |
| Server.LostConnection | UDP01/OldCode/Socket/Socket.cpp:98-107 | A run in which an open connection ends in no place |
| Server.TCPServer.BeginAcceptingNewConnections | UDP01/OldCode/Socket/Socket.cpp:47-61 | A new open connection gets the next number, and its id is 1024 plus that number modulo 65536 |
| Server.TCPServer.NewConnectionAcceptedHandler | UDP01/OldCode/Socket/Socket.cpp:63-90 | Without an error the connection joins both lists, with one neither; the new state is that of the accept event, and the next accept has begun |
| Server.TCPServer.RescheduleMe | UDP01/OldCode/Socket/Socket.cpp:92-96 | The connection joins the end of the awaiting list |
| Server.TCPServer.HandleReschedule | UDP01/OldCode/Socket/Socket.cpp:98-107 | A read is started on every awaiting connection, and the list is cleared |
| Server.TCPServer.HandleRead | UDP01/OldCode/Socket/Socket.cpp:213-242 | After parsing the connection joins the awaiting list; after an error it is closed and the list stays |
| Server.TCPServer.CleanupClosedConnections | UDP01/OldCode/Socket/Socket.cpp:109-125 | The erasing loop leaves the open connections in order |
| Server.ServerConnection.SetConnectionId | UDP01/OldCode/Socket/Socket.h:119-119 | The id is the counter modulo 65536 |
| Client.ClientSafe | UDP01/OldCode/Socket/ClientSocket.h:134-262 | In every interleaving after `start`: the endpoints tried are the first ones, in order, each once; a running client has exactly one connect or read outstanding; connected implies not stopped; lines, their newlines and the buffer are exactly the bytes received |
| Client.StoppedStartsNothing | UDP01/OldCode/Socket/ClientSocket.h:149-157 | Once stopped, no connect or read is started in any continuation |
| Client.FailedAttempt | UDP01/OldCode/Socket/ClientSocket.h:181-207 | Every failed attempt takes the next endpoint, and only without one does the client stop |
| Client.FailuresBounded | UDP01/OldCode/Socket/ClientSocket.h:160-207 | No run has more failed attempts than endpoints remained plus the one outstanding, and each failure has tried one more |
| Client.TextAfter | UDP01/OldCode/Socket/ClientSocket.h:237-262 | Every byte received is in a line, ends one, or is still in the buffer, and no line contains a newline |
| Client.Begins | UDP01/OldCode/Socket/ClientSocket.h:134-179 | After `start` the first endpoint is tried, with a deadline 60 seconds later; without endpoints the client has stopped |
| Client.Connects | UDP01/OldCode/Socket/ClientSocket.h:208-235 | A connect that succeeds in time makes the client connected and starts one read, with a deadline 30 seconds later |
| Client.LineIsTaken | UDP01/OldCode/Socket/ClientSocket.h:237-262 | Each completed read yields exactly one more line; that line, a newline and what stays in the buffer are the text that was there, and the line holds no newline; the next read has 30 seconds |
| Client.Stops | UDP01/OldCode/Socket/ClientSocket.h:149-157 | A read error, a write error and the user stop a running client: closed and not connected, with the lines kept |
| Client.StoppedEnds | UDP01/OldCode/Socket/ClientSocket.h:181-262 | After that each outstanding operation ends with its event and starts nothing |
| Client.DeadlineActor | UDP01/OldCode/Socket/ClientSocket.h:337-360 | The deadline handler of a running client closes the socket and clears the deadline just when that has passed, and sleeps again in any case |
| Client.DeadlineIsLate | UDP01/OldCode/Socket/ClientSocket.h:337-360 | The deadline actor closes an open socket if and only if 60 seconds of connecting or 30 of reading have passed |
| Client.ConnectedIsNotOpen | UDP01/OldCode/Socket/ClientSocket.h:337-360 | `isConnected` does not say that the socket is open: from the connection on it is open if and only if the deadline actor has never found a read 30 seconds old |
| Client.ConnectedAndClosed | UDP01/OldCode/Socket/ClientSocket.h:337-360 | A run in which a connected client has a closed socket |
| Client.Newline | UDP01/OldCode/Socket/ClientSocket.h:244-245 | The first newline, or the length when there is none |
| Client.TCPClient.StartClient | UDP01/OldCode/Socket/ClientSocket.h:134-144 | The state after `start`: one connect outstanding, or stopped for want of endpoints |
| Client.TCPClient.StopClient | UDP01/OldCode/Socket/ClientSocket.h:149-157 | Stopped, closed and not connected |
| Client.TCPClient.StartConnecting | UDP01/OldCode/Socket/ClientSocket.h:160-179 | The next connect with its deadline, or stop |
| Client.TCPClient.OnConnect | UDP01/OldCode/Socket/ClientSocket.h:181-223 | The new state of the connect handler, in its four cases |
| Client.TCPClient.StartReading | UDP01/OldCode/Socket/ClientSocket.h:226-235 | One more read, with its deadline |
| Client.TCPClient.OnRead | UDP01/OldCode/Socket/ClientSocket.h:237-262 | The new state of the read handler: the first line taken out of the buffer and the next read, or stop just after an error |
| Client.TCPClient.OnDeadline | UDP01/OldCode/Socket/ClientSocket.h:337-360 | The new state of the deadline handler |
| Handshake.HandshakeSafety | Common/Connection.h:38-94 | Over a network that drops, duplicates and reorders what `DataSend` emitted: neither machine fails if and only if no empty datagram is delivered to one still in the handshake, and no machine passes it unless its peer emitted its hello |
| Handshake.EmptyDatagramFails | Common/Connection.h:38-62 | A run in which it does fail: the server accepts the hello, and what it sends next is empty |
| Handshake.Sends | Common/Connection.h:38-63 | In its handshake a client sends the bytes AA 04 49 4F 49 43 and a server AA 08 49 4F 49 43 when there is room for seven; with room for six the program ends, with less the machine fails |
| Handshake.Accepts | Common/Connection.h:64-94 | It accepts just the datagrams that begin with those six bytes of the other side, and fails on any other; a server that accepts is ready to send again, a client keeps its flag |
| Handshake.FreshHellos | Common/Connection.h:25-37 | A new client and a new server emit these bytes, and are ready to send |
| Handshake.PastHandshake | Common/Connection.h:38-94 | Past the handshake a send succeeds with no bytes, and nothing received changes the machine |
| Handshake.ReadyExactly | Common/Connection.h:38-96 | In every run the client has its sent flag set just when it has emitted its hello, and the server just when it has emitted its own and not accepted one |
| Handshake.PastHandshakeStays | Common/Connection.h:38-94 | Past the handshake each end stays as it is in every continuation, and adds nothing but empty datagrams to what travels |
| Handshake.SilentServer | Common/Connection.h:64-87 | A server that accepted without having sent never emits a hello in any continuation, and its client never completes |
| Handshake.ClientCanComplete | Common/Connection.h:38-94 | From any reachable state in its handshake the client can complete if and only if the server has sent its hello or has not yet accepted one |
| Handshake.BothCanComplete | Common/Connection.h:38-94 | From any reachable state both ends can still complete if and only if each is through, or is in its handshake and its peer has sent its hello or is in its handshake too |
| Handshake.ClientAcceptsFirst | Common/Connection.h:38-94 | A run after which they cannot: the client accepts before it sends, and the server waits for ever |
| Handshake.AcceptingFirstNeverCompletes | UDP01-ThreadedServer/UDP01-ThreadedServer.cpp:157-162 | With a server that accepts before it sends, as the threaded server does, no client completes in any run |
| Handshake.CommsStateMachine.DataSend | Common/Connection.h:38-63 | State, result and the whole buffer are those of the machine by value; in the handshake with room the bytes sent are AA, 04 of a client or 08 of a server, 49 4F 49 43 |
| Handshake.CommsStateMachine.DataReceive | Common/Connection.h:64-94 | State and result are those of the machine by value; in the handshake it accepts just the six bytes of the other side |
| Handshake.CommsStateMachine.WriteProtocolSentinel | Common/Connection.h:97-108 | AA, and 04 of a client or 08 of a server; no other byte changes |
| Handshake.CommsStateMachine.ReadProtocolSentinel | Common/Connection.h:110-138 | Accepts just AA and 08 in a client or 04 in a server, and fails otherwise |
| CommonTypes.StringBack | UDP01/OldCode/Packets/Serialize.h:213-244 | A string comes back if and only if it has at most 3071 characters and no NUL; the read offset is the write offset just when the length sent is below 3072 |
| CommonTypes.StringBytes | UDP01/OldCode/Packets/Serialize.h:233-243 | The wire form: 256 times the first byte plus the second is the length modulo 65536, and so many characters follow |
| CommonTypes.StringCut | UDP01/OldCode/Packets/Serialize.h:213-244 | Of any string that was written, at most the first 3071 characters are read, up to the first NUL |
| CommonTypes.BucketRoundTrip | UDP01/OldCode/Packets/CommonTypes.cpp:6-36 | A string list read back is appended to the old content of the target, and the offset is that of the writer, if and only if all strings are of that kind |
| CommonTypes.BucketBytes | UDP01/OldCode/Packets/CommonTypes.cpp:22-36 | The number of strings in four bytes, and the strings behind it |
| CommonTypes.StringsOutJoin | UDP01/OldCode/Packets/CommonTypes.cpp:22-36 | The strings are written one behind the other, in order |
| CommonTypes.BucketOfNone | UDP01/OldCode/Packets/CommonTypes.cpp:6-20 | A negative count on the wire appends nothing |
| CommonTypes.TableRoundTrip | UDP01/OldCode/Packets/CommonTypes.cpp:48-95 | A non-empty table read back replaces the target exactly, with the offset of the writer, if and only if it is rectangular with all strings of that kind |
| CommonTypes.TableBytes | UDP01/OldCode/Packets/CommonTypes.cpp:69-95 | The number of rows and that of columns in four bytes each, and the rows behind them |
| CommonTypes.RowsOutJoin | UDP01/OldCode/Packets/CommonTypes.cpp:69-95 | The rows are written one behind the other, in order |
| CommonTypes.TableOfNone | UDP01/OldCode/Packets/CommonTypes.cpp:48-67 | A negative number of rows on the wire gives the empty table |
| CommonTypes.OutString | UDP01/OldCode/Packets/Serialize.h:233-243 | Exactly the wire form of the string is written |
| CommonTypes.InString | UDP01/OldCode/Packets/Serialize.h:215-232 | The value up to its first NUL and the new offset, as by value |
| CommonTypes.StringBucket.SerializeOut | UDP01/OldCode/Packets/CommonTypes.cpp:22-36 | Exactly the count and the wire forms of the strings are written |
| CommonTypes.StringBucket.SerializeIn | UDP01/OldCode/Packets/CommonTypes.cpp:6-20 | The strings read join those that are there |
| CommonTypes.DynamicDataBucket.SerializeOut | UDP01/OldCode/Packets/CommonTypes.cpp:69-95 | Exactly the number of rows, the width of the first and the strings of all rows are written |
| CommonTypes.DynamicDataBucket.SerializeIn | UDP01/OldCode/Packets/CommonTypes.cpp:48-67 | The rows read replace those that were there |
| FixedStrings.FixedRoundTrip | UDP01/OldCode/General/FixedLengthString.inl:52-89 | A copy written and read back is the first characters of the string, as many as fit |
| FixedStrings.BoundedRoundTrip | UDP01/OldCode/General/FixedLengthString.inl:191-228 | Characters that fit come back, with the offset of the writer, if and only if their number fits 16 bits |
| FixedStrings.BoundedIntoSmaller | UDP01/OldCode/General/FixedLengthString.inl:191-213 | Into a smaller buffer only the first characters are read, and the offset stays before the others |
| FixedStrings.BoundedBytes | UDP01/OldCode/General/FixedLengthString.inl:215-228 | The wire form: 256 times the first byte plus the second is the length modulo 65536, and all the characters follow |
| FixedStrings.PaddedAt | UDP01/OldCode/General/FixedLengthString.inl:61-66 | The wire form of the other class: the characters, then zeros |
| FixedStrings.CopyString | UDP01/OldCode/General/FixedLengthString.inl:51-67 | `strncpy`: the characters up to the first NUL, and zeros up to the count; a source that ends behind its NUL may be shorter than the count |
| FixedStrings.FixedLengthString.Copy | UDP01/OldCode/General/FixedLengthString.inl:71-89 | The string then held is the first characters, as many as fit, or empty for a null pointer; it is terminated |
| FixedStrings.FixedLengthString.SerializeOut | UDP01/OldCode/General/FixedLengthString.inl:61-66 | The string padded with zeros to the capacity, by which the offset advances |
| FixedStrings.FixedLengthString.SerializeIn | UDP01/OldCode/General/FixedLengthString.inl:52-58 | The string held is the one read, cut to the capacity, and it is terminated; the offset advances by the capacity |
| FixedStrings.BoundedLengthString.Copy | UDP01/OldCode/General/FixedLengthString.inl:230-249 | The first characters, as many as fit, with their number stored and a terminator behind them |
| FixedStrings.BoundedLengthString.Length | UDP01/OldCode/General/FixedLengthString.inl:151-157 | `length` is the stored length just when the characters hold no NUL |
| FixedStrings.BoundedLengthString.SerializeOut | UDP01/OldCode/General/FixedLengthString.inl:215-228 | The length in 16 bits and the characters; the offset advances by two and their number |
| FixedStrings.BoundedLengthString.SerializeIn | UDP01/OldCode/General/FixedLengthString.inl:191-213 | Characters and offset as by value, with a terminator behind them |
| Base64.RfcAt | UDP01/OldCode/General/Base64.cpp:18-49 | Each character of the text that section 4 of RFC 4648 prescribes by groups of 24 bits is the character of the six bits at its place, or the pad |
| Base64.CharIsOfAlphabet | UDP01/OldCode/General/Base64.cpp:18-49 | The 64 characters are those of table 1 of RFC 4648, and the pad is the equals sign |
| Base64.ValueExactly | UDP01/OldCode/General/Base64.cpp:52-69 | Just the characters of the alphabet and the pad have a value; that of the pad is zero |
| Base64.GroupDigits | UDP01/OldCode/General/Base64.cpp:18-49 | The values of the four characters of a group are the digits to base 64 of the number whose digits to base 256 are its three bytes |
| Base64.TestVectors | UDP01/OldCode/General/Base64.cpp:18-49 | The first examples of section 10 of RFC 4648 |
| Base64.OctetBack | UDP01/OldCode/General/Base64.cpp:53-69 | Regrouping into six bits and back into eight gives the bytes |
| Base64.DecodeRfc | UDP01/OldCode/General/Base64.cpp:52-73 | Decoding a standard text gives the source and then the zero bytes of its last group, as far as the limit allows: the pad decodes as zero |
| Base64.RoundTrip | UDP01/OldCode/General/Base64.cpp:18-73 | With the source length as limit, exactly the source comes back, the length is the source length, and the returned position is the end of the text |
| Base64.DecodeThenEncode | UDP01/OldCode/General/Base64.cpp:18-73 | Encoding the bytes that were decoded gives the good characters again if and only if these are the canonical text of so many bytes: right length, pads exactly behind the characters that carry bits, and no bit set where no byte is |
| Base64.ReturnsFirstBad | UDP01/OldCode/General/Base64.cpp:52-73 | With room enough, the returned position is that of the first bad character if and only if the good ones make whole groups |
| Base64.ReturnsBehindNul | UDP01/OldCode/General/Base64.cpp:52-73 | A text of two good characters, for which the position returned lies behind its NUL |
| Base64.Encode | UDP01/OldCode/General/Base64.cpp:18-49 | The characters written are the standard text of the source, their number is returned, and no other character changes |
| Base64.Decode | UDP01/OldCode/General/Base64.cpp:52-73 | The whole octets of the leading good characters, as many as the limit allows; their number in the length; the position after the last group |

## Left out

- Sockets, Winsock, Boost.Asio, threads, timers, logging, file and date helpers: input and output; only the step structure of the handlers is modelled.
- Floating point: positions are exact in `real` because every step scales by a power of two; the division of angles by 360 is idealised, without IEEE rounding.
- Delivery across reads: a partial frame at the end of a read is dropped by the source, so the theorems are about one read.
- `TCPClient::start_write` and `handle_write`: the offset is not reset between writes, so the k-th write repeats earlier frames; only the stop after a failed write is an event of the client.
- `TCPServer::RemoveConnection`: it searches the list and changes nothing.
- Server.TCPServer.BeginAcceptingNewConnections: the counter is unbounded, where the source's `int` would overflow after 2^31 connections.
- Server.UnlockedReschedule: single list operations are atomic, where the source's list has no lock at all.
- Server.TCPServer.HandleRead: one atomic handler, parsing included; the machine by value splits it into a completion and the end of parsing, and its theorems are about the split steps.
- PacketFactory.PacketMethodFactory.Create: the debug assertion for an unknown pair is left out, and null is returned as in a release build.
- PacketFactory.PacketMethodFactory.InitFactory: visits the pairs in any order, where the source takes them in the order of the map.
- TcpConnection.TCPConnection.HandleRead: ends where a missing pooled object would be dereferenced, and asks the guard at the end of each round rather than before the next.
- PacketObjects.PacketObject.SerializeIn: one class with a kind stands for the class hierarchy and its virtual calls.
- CommonTypes.BucketRoundTrip: lists of fewer than 2^31 strings, which is all that an `int` offset can address.
- CommonTypes.InString: a read that leaves the memory is excluded, since the source does not check it.
- Base64.Encode: texts below 2^32 characters, as the U32 arithmetic of the source demands; the Boost iterators are modelled as regrouping of bits and the alphabet, and are not part of this model otherwise.
- Base64.Decode: the source text must contain a character outside the alphabet, as its terminating NUL is.
- Handshake: the drivers around the machine, which send a whole buffer instead of the bytes used and pass an address length as a byte count; emission is the bytes used.
- The ring is `General/CircularBuffer.h`, lines 16 to 90, which is not valid UTF-8; the rows about it cite its uses in the factory. `reset`, `size` and `empty` are modelled as well.
- `FixedLengthString::find`, comparison operators, `KeyValueSerializer`, `SerializedVector` and `SerializedKeyValueVector`: easy, or without a body to model.
- `FloatCompressed`: unused on the wire. `PacketObserver`, `ServerSocket` lists, server type tables, `TypeRegistry.h`: broken, easy or templates only.
- Ownership through `shared_ptr`, struct padding and the layout of virtual pointers.
