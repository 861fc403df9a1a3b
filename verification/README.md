# Verified model of the Hx monitoring gateway

The gateway reads temperature probes behind Bluetooth core modules, queues the readings, stores them in a local SQLite
table and uploads them to DynamoDB. It keeps its configuration in a JSON file and refreshes it from the cloud. This
project models that logic in Dafny and proves what it guarantees against an environment that may fail at every step:
lost acknowledgements, failed inserts and updates, crashes, broken radio links, refused requests, interrupted writes.

Some results say where the program is narrower than it looks. They are proved as exactly as the good news: an
acknowledgement left in the response buffer is taken for that of the next PUT, a response without a value shows the
value of another probe, a match on the hundredth poll is not taken, only the low octet of a handle is sent, half-done
discovery is never repaired, a row with timestamp 0 blocks all later rows, a failed write makes the send loop repeat an
octet, a closed stream keeps the receive loop going, sensors that could not be fetched during an update stay lost, an
interrupted file write is final.

## How it is built

| part | files |
|---|---|
| shared values | `Types.dfy` |
| store and forward | `UploadMachine.dfy` (a state machine over the smallest steps, with its invariant), `Response.dfy` (what the program reads as an acknowledgement), `UploadTheorems.dfy` (what holds over all runs), `Attempts.dfy` (when the consumer tries to upload), `UploadHandler.dfy` (the consumer thread as a class whose methods take exactly the steps of that machine) |
| producer | `Producer.dfy`, `Lifetime.dfy` (from the sensors to the cloud, over restarts) |
| BLE client | `AttServer.dfy` (a conforming attribute server: Bluetooth Core Specification v5.3, Vol 3 Part F sections 3.4.1.1 and 3.4.4.1-3.4.4.2, Vol 3 Part G sections 3.3.1 and 4.6.1), `Link.dfy` (socket, write and read primitives over an arbitrary peer), `CoreModules.dfy`, `Discovery.dfy`, `DiscoveryTheorems.dfy`, `Exchange.dfy`, `Acquisition.dfy`, `AcquisitionTheorems.dfy`, `RoundTheorems.dfy`, `TurnTheorems.dfy` (the octets sent in a turn and all its outcomes), `Provenance.dfy` (where the octets shown come from), `ShortResponses.dfy` |
| request signer | `Text.dfy`, `Http.dfy` (a reader of RFC 9112 requests), `SigV4.dfy` (the receiving side of AWS Signature Version 4), `Signer.dfy` (the program) |
| configuration | `Config.dfy`, `RemoteConfig.dfy`, `ConfigTheorems.dfy`, `Published.dfy` (what the cloud publishes and the file keeps, as JSON) |
| streams and codecs | `Stream.dfy`, `Codec.dfy` |

Loops and mutable objects of the program are methods and classes here. Each is proved equal to a specification function
(`Transact`, `Discover`, `Poll`, `Round`, `Ticked`, `Loaded`, `RemoteUpdated`, `Sent`, `Received`), or to a run of the
upload machine, and the theorems are about those. Everything the program cannot control is a parameter about which
nothing is assumed beyond what the row says.

## Model

| member | source | states |
|---|---|---|
| UploadMachine.NextPending | src/dynamodb_utilities.c:141-147 | the cursor stops at the first row not marked, and passes only marked ones |
| UploadMachine.MarkMovesFrontier | src/dynamodb_utilities.c:166-178 | since ids grow along the table, the UPDATE by id marks the one row at the frontier, no other row changes, and the frontier moves by exactly one |
| UploadMachine.StepKeepsInv | src/dynamodb_utilities.c:112-248 | every step of consumer, producer, environment and crash keeps the invariant on table, cloud, cursor, cost and flow of readings |
| UploadMachine.RunKeepsInv | src/dynamodb_utilities.c:112-248 | so does every run; the table only grows and no stored reading changes |
| UploadMachine.RunConcat | src/dynamodb_utilities.c:211-248 | a run can be cut anywhere into two runs |
| UploadTheorems.DeliveredInOrder | src/dynamodb_utilities.c:147-195 | in every reachable state the marked rows are a prefix of the table, and the cloud holds that prefix, or that prefix and one more row, in order and without the lost rows; a marked row is lost if and only if a PUT of it was read as acknowledged without having been stored and no other PUT of it was stored |
| UploadTheorems.FullUnlessMisread | src/dynamodb_utilities.c:87-107 | no marked row is missing from the cloud if and only if none was lost to such a misread answer |
| UploadTheorems.FullIsPrefix | src/dynamodb_utilities.c:147-195 | then the cloud, without rows stored again right after themselves, is the first rows of the table: all that are marked and at most one more |
| UploadTheorems.NoMisreadDelivers | src/dynamodb_utilities.c:147-195 | every run without a misread answer delivers all it marks |
| UploadTheorems.MisreadLoses | src/dynamodb_utilities.c:87-107 | a run of eight steps in which one misread answer leaves a marked row and an empty cloud |
| UploadTheorems.ZeroTimestampBlocks | src/dynamodb_utilities.c:158-162 | a row with timestamp 0, and every row after it, is never sent nor marked, whatever happens from then on |
| UploadTheorems.ReadingsConserved | src/dynamodb_utilities.c:211-226 | what was pushed in this boot is an interleaving of rows inserted and readings whose insert failed, then the reading in hand, then the queue; without failed inserts the rows are the consumed readings in order |
| UploadTheorems.UploadCost | src/dynamodb_utilities.c:228-243 | per boot, the PUTs sent, accepted or not, number at most rows marked plus failed syncs plus the one being marked, and N pops allow at most ceil(N/101) failed syncs |
| UploadTheorems.BackoffLasts | src/dynamodb_utilities.c:228-243 | a failed sync is followed by exactly 100 pops without an attempt, after which the counter is 0 again |
| Attempts.AttemptsAreSpaced | src/dynamodb_utilities.c:112-243 | in every run, from the start of a process or from an attempt on, the next attempt of that process comes after exactly 1 more pop if nothing failed since, and after exactly 101 if there was no internet, the database did not open, a PUT was not read as acknowledged, or a mark failed |
| Attempts.AttemptsAreDue | src/dynamodb_utilities.c:211-243 | and there are never more pops than that without an attempt |
| Attempts.HistoryIsRecorded | src/dynamodb_utilities.c:112-244 | the readings pushed, pops, failed syncs and PUTs of which the other theorems speak are those among the events of the run |
| UploadTheorems.OnlyPushedArrives | src/dynamodb_utilities.c:211-244 | any property of all pushed readings holds of every reading in queue, table and cloud |
| UploadTheorems.CatchUp | src/dynamodb_utilities.c:211-244 | from any reachable state, after 101 or more pops in a favourable environment all rows are marked if and only if none has timestamp 0; in general a row is marked exactly when no row up to it has |
| UploadHandler.ConsumeIsRun | src/dynamodb_utilities.c:205-248 | the consumer's own steps are a run of the machine |
| UploadHandler.ConsumeCountsPops | src/dynamodb_utilities.c:214 | the pops among those steps are the ones the machine counts |
| UploadHandler.ConsumerPushesNothing | src/dynamodb_utilities.c:205-248 | none of those steps puts anything on the queue |
| UploadHandler.AllWellIsFavourable | src/dynamodb_utilities.c:205-248 | if nothing goes wrong while readings are handled, all of those steps are favourable in the sense of catching up |
| UploadHandler.ReadsWellIsNeverMisread | src/dynamodb_utilities.c:30 | with a cloud that confirms only what it has stored, and a buffer whose old contents never complete an answer it does not confirm, the consumer never misreads an answer |
| UploadHandler.StaleBufferMarks | src/dynamodb_utilities.c:87-181 | if the buffer still holds an older acknowledgement and the peer is silent, two steps of the consumer mark a row that was not stored |
| UploadHandler.TurnDetermined | src/dynamodb_utilities.c:211-248 | one turn of the consumer, from waiting to waiting, can end in one state only |
| UploadHandler.Uploader.PushData | src/main.c:54 | pushing appends to the queue and is a step of the machine |
| UploadHandler.Uploader.WriteSqliteHxData | src/localdb_utilities.c:8-102 | if the database opens, has its table and takes the row, the reading is appended with the next id and status 0; otherwise nothing changes and the result is 1 |
| UploadHandler.Uploader.SyncRow | src/dynamodb_utilities.c:164-193 | one PUT and its mark are machine steps; the cloud gets the reading exactly if it stores it; the result is 2 if the answer does not read as an acknowledgement, 1 if the mark fails, and 0 otherwise |
| UploadHandler.Uploader.SyncHxData | src/dynamodb_utilities.c:112-203 | a sync is a sequence of machine steps; offline the result is 2 and without the database 1, nothing being sent or marked; a non-zero result is exactly one more failed sync; after result 0 without a cursor error every row is marked up to the first with timestamp 0 |
| UploadHandler.Uploader.HandleOne | src/dynamodb_utilities.c:211-245 | one turn of the consumer is the machine's turn, for every behaviour of database, network, cloud and response buffer: the head of the queue is taken and appended if the database takes it; a counter above 0 goes on to 100 and then to 0, nothing else happening; from 0 it becomes 1 if and only if one of the four failures happened |
| UploadHandler.TurnFails | src/dynamodb_utilities.c:228-234 | over any part of a turn that starts from counter 0, the counter is 1 exactly after a failure, which ends the turn |
| UploadHandler.Uploader.Restart | src/dynamodb_utilities.c:205-211 | a new process is the machine's crash step: queue and counter are gone, table and cloud are kept |
| Response.SyncSingleRawData | src/dynamodb_utilities.c:26-109 | the result is 0 if and only if the request was built and sent and the octets of "HTTP/1.1 200 OK", of "Date:" and of "{" stand somewhere in the buffer before its first zero |
| Response.GoodAnswerIsAcked | src/dynamodb_utilities.c:87-107 | an answer 200 with a Date field and a body to a PUT that was stored is an acknowledgement, whatever the buffer held |
| Response.OtherStatusIsNotAcked | src/dynamodb_utilities.c:91-94 | the same with any other status code is none, unless the 200 line stands in what follows it or in the old buffer behind it |
| Response.WaitsForHalfASecond | src/dynamodb_utilities.c:266-284 | receiving ends if and only if more than half a second has passed since the last read that brought data, or more than a second since the timer was last set |
| Response.SendHttpRequestToDynamodb | src/dynamodb_utilities.c:305-368 | what was received lies over the beginning of the buffer, the rest of which stays |
| Response.SilenceKeepsVerdict | src/dynamodb_utilities.c:266-302 | a PUT answered by nothing gets the verdict of the buffer as it was |
| Response.AcknowledgementIsInherited | src/dynamodb_utilities.c:30 | after an acknowledged PUT whose buffer is reused, a silent peer acknowledges a PUT that was not stored |
| Response.MisreadHappens | src/dynamodb_utilities.c:87-107 | two such PUTs, one after the other |
| Response.TerminatedIsNeverMisread | src/dynamodb_utilities.c:87-107 | if the buffer ends behind the octets received, the verdict is theirs alone, and an answer is misread exactly when the cloud confirms what it has not stored |
| Response.HonestMisreads | src/dynamodb_utilities.c:87-107 | from a cloud that confirms only what it has stored, a PUT it has not stored is misread if and only if the octets received hold no zero and, continued by the old text of the buffer behind them, contain the three texts |
| Response.ClearedIsNeverMisread | src/dynamodb_utilities.c:30 | so with a buffer cleared before the call it is never misread, whatever arrives |
| Producer.PushReadings | src/main.c:44-55 | one reading a sensor is pushed, in order, with the time of the tick |
| Producer.TimeoutCallback | src/main.c:19-59 | at multiples of 60 seconds since the start the i-th module has its round, on the response buffer as the one before left it, if and only if the nine letters of "Bluetooth" stand somewhere in its protocol text, and is left alone otherwise; then one reading for each sensor of each module, with its address, value, code and the time of the tick, has joined the queue in order; at other times nothing changes |
| Lifetime.LifeIsTraced | src/main.c:19-59 | over any sequence of ticks, consumer and cloud steps and restarts, sensors with an error code show 999.0; a TSYS01 probe that is OK shows its initial number or a response with its own address heard in the same process, and where that response is too short, octets in the same place of others heard there, or the initial 0; everything heard was said by a peer to one of the reads made |
| Lifetime.LifeIsOwn | src/main.c:19-59 | a probe to whose address no peer ever answers in fewer than 14 octets shows only octets 10 to 13 of a response with that address, heard in the same process |
| Lifetime.CloudIsTrue | src/main.c:44-55 | the first of these holds of every reading in database and cloud, traced to what one process heard, whatever fails and whenever the gateway crashes |
| Lifetime.CloudIsOwn | src/main.c:44-55 | and so does the second |
| AttServer.FoundShape | src/ble_data_acq.c:427-468 | a 128-bit item is alone in its answer, since two do not fit in 40 octets, and all items of an answer have one length |
| AttServer.AnswerOctets | src/ble_data_acq.c:419-457 | what the server of the model sends, octet by octet: error 0x0A, or the length of an item and the first item |
| AttServer.EntriesFit | src/ble_data_acq.c:390-412 | an answer never exceeds the room in the PDU |
| AttServer.NextFrom | src/ble_data_acq.c:450-457 | asking again from a value handle skips exactly the declarations up to that value |
| Link.WriteGivesUpAfterFive | src/ble_data_acq.c:171-205 | a PDU is given up if and only if five attempts in a row fail, and the socket is then closed |
| Link.Socket.WriteBleData | src/ble_data_acq.c:171-205 | the retry loop is the specified write |
| Link.Socket.ReadBleData | src/ble_data_acq.c:207-247 | a read lays what arrived over the buffer, or closes the socket |
| TurnTheorems.LongAnswersAreCut | src/ble_data_acq.c:207-247 | of an answer longer than 40 octets the first 40 are read |
| Discovery.EncDiscoverCmd | src/ble_data_acq.c:364-386 | the seven octets are 0x08, the two given handles with the low octet first, and 0x03 0x28 |
| Discovery.AnswerUnderstood | src/ble_data_acq.c:419-457 | the fixed offsets read the first item of any good answer, and the offsets from the end its last value handle |
| Discovery.DicoverChar | src/ble_data_acq.c:388-485 | the octet-level client finds what discovery over characteristics finds, and terminates, for every packing and every fault |
| DiscoveryTheorems.DiscoverLearnsPrefix | src/ble_data_acq.c:401-479 | whatever the faults, discovery learns from a prefix of the characteristics, skipping and repeating none; it ends well only when that is all of them |
| DiscoveryTheorems.DiscoverIsBounded | src/ble_data_acq.c:401-479 | on every link, whatever fails, discovery sends at most one request more than there are characteristics left |
| DiscoveryTheorems.DiscoverAsks | src/ble_data_acq.c:401-479 | all it sends are searches to handle 0xFFFF, the first from handle 1 and the others from value handles it was told |
| DiscoveryTheorems.DiscoverEndsWell | src/ble_data_acq.c:401-479 | on a reliable link it ends well |
| DiscoveryTheorems.DiscoverySucceeds | src/ble_data_acq.c:388-485 | with one characteristic of the UUID with 0x55 and one with 0x56 among any others, in any order and packing, their value handles become the read and the write handle and `discovered` is 2 |
| DiscoveryTheorems.CutOffLearns | src/ble_data_acq.c:412-417 | a read lost after any number of characteristics ends discovery with exactly those learned and the socket closed |
| DiscoveryTheorems.UsableIffTwoMatches | src/ble_data_acq.c:430-448 | `discovered` ends up as 2 if and only if two characteristics carry one of the two UUIDs |
| Exchange.SendBleCmdWithResponse | src/ble_data_acq.c:249-361 | the exchange is the specified one; the response buffer keeps what a short response does not cover |
| Exchange.PollLoop | src/ble_data_acq.c:302-354 | the polling loop is the specified polling |
| Exchange.SearchIsExact | src/ble_data_acq.c:302-348 | looking at up to n replies finds the first match if and only if it is among the first n - 1 |
| Exchange.PollIsExact | src/ble_data_acq.c:302-354 | on a working link the first matching response is taken if and only if it is among the first 99 polls; at most 100 read requests are sent, one for each reply looked at |
| Acquisition.ProcessBleRespTempProbe | src/temp_probe_RS485_tsys01.c:41-59 | the value is octets 9 to 12 if octet 2 is 0x41, and otherwise the sensor's value stays and the probe is reported silent |
| Acquisition.ReadTsys01 | src/ble_data_acq.c:517-537 | reading one probe is the specified reading |
| Acquisition.SensorTurn | src/ble_data_acq.c:496-549 | one sensor's turn is the specified turn |
| Acquisition.MarkTimedOut | src/ble_data_acq.c:558-562 | every sensor of a module that could not be connected shows 999.0 and the timeout code |
| Acquisition.BleDataAcq | src/ble_data_acq.c:487-571 | a round is the specified round, whatever the link does |
| TurnTheorems.TurnSends | src/ble_data_acq.c:271-311 | in the turn of a sensor whose module has its handles nothing is sent, or it is a TSYS01 probe and one write request is, with the ten octets of its command, followed by at most 100 read requests; octet by octet |
| TurnTheorems.CommandFails | src/ble_data_acq.c:271-300 | five failing writes give 999.0 and the write error; anything but the octet 0x13 in answer to the command gives 999.0 and the read error |
| TurnTheorems.AnswerIsTaken | src/ble_data_acq.c:302-354 | otherwise the first read response with the address within 99 polls decides: 0x41 at octet 3 gives OK and the four octets of the value, anything else 999.0 and the code of a silent probe |
| TurnTheorems.NoAnswerFails | src/ble_data_acq.c:340-354 | and if there is none, 999.0 and the code of a silent module |
| TurnTheorems.OtherSensors | src/ble_data_acq.c:539-549 | a sensor of prefix "03" is left alone, one of any other prefix becomes unknown with 999.0, and nothing is sent |
| TurnTheorems.NotConnected | src/ble_data_acq.c:555-563 | without a connection every sensor gets 999.0 and the timeout code |
| AcquisitionTheorems.ErrorsAreMarked | src/ble_data_acq.c:487-564 | over any number of rounds with any peers, a code other than OK comes with the value 999.0 |
| AcquisitionTheorems.SettledByOwnTurn | src/ble_data_acq.c:494-554 | a sensor reaches its turn unchanged and leaves the round as its own turn left it |
| AcquisitionTheorems.ValueIsAttributed | src/ble_data_acq.c:330-352 | a probe that is OK shows the value of a reply that follows the command, carries its own address and says the reading is good, if that reply has 13 octets after its opcode; otherwise the missing octets are old ones |
| Provenance.RoundHears | src/ble_data_acq.c:487-571 | all that a round hears is what its peer says to the reads of that round, and nothing heard before is forgotten |
| Provenance.RoundKeepsKnown | src/ble_data_acq.c:487-571 | a round leaves each octet of the response buffer as one of a read response heard, in the same place, or 0, and each sensor that is OK with its initial number or such octets laid under a response with its own address that was heard |
| ShortResponses.OwnValueIfLong | src/ble_data_acq.c:330-352 | after a turn that takes a given good response the value is the same whatever the buffer held, if and only if the response has at least 14 octets; then it is octets 10 to 13 |
| ShortResponses.ShortResponseShowsAnother | src/temp_probe_RS485_tsys01.c:41-51 | a round of two probes, nothing failing, in which the second answers with its address and no value: it ends OK with the value of the first |
| AcquisitionTheorems.LinkFailureIsSticky | src/ble_data_acq.c:184-204 | once the socket is closed in a round, later TSYS01 probes get the write error if `discovered` is 2 and keep what they have otherwise; nothing more is sent or found |
| AcquisitionTheorems.HalfFoundForever | src/ble_data_acq.c:496-509 | a module with one characteristic found is never searched or read again, over any number of rounds |
| RoundTheorems.LostDiscoveryCanStick | src/ble_data_acq.c:401-448 | for every server with one characteristic of each kind there is a link, with one lost read, after which the module has exactly one of them and no later round ever makes it usable |
| RoundTheorems.LostDiscoveryRecovers | src/ble_data_acq.c:494-507 | after a lost discovery and any rounds that cannot connect, a reliable round makes the module usable if and only if the characteristics seen before the loss hold neither or both of the two |
| RoundTheorems.CutDecides | src/ble_data_acq.c:401-507 | for a link that breaks after any given number of characteristics, followed by a flawless round: usable if and only if those seen hold neither or both of the two |
| RoundTheorems.RoundFinds | src/ble_data_acq.c:494-507 | the handles after a round are those of the first search, if that found something or lost the link |
| RoundTheorems.RoundReadsAll | src/ble_data_acq.c:487-571 | on a reliable link, with handles known or found, every TSYS01 probe whose command is acknowledged and answered well within 99 polls ends the round OK with the octets of its own response |
| RoundTheorems.FlawlessProbeIsRead | src/ble_data_acq.c:509-537 | for every probe address and value there is a device of which a round reads exactly that value |
| RoundTheorems.OnlyLowHandlesAreRead | src/ble_data_acq.c:271-311 | of a device that takes requests to its own handles only, no probe is read in a turn unless both handles are below 256 |
| RoundTheorems.HandlesDecide | src/ble_data_acq.c:271-311 | if such a device would serve every exchange in which the handles are written out in full, a round reads its probes if and only if both handles are below 256 |
| RoundTheorems.OwnHandlesDecide | src/ble_data_acq.c:271-311 | for any two handles, probe and value there is such a device |
| Signer.BuildCanonicalRequest | src/dynamodb_utilities.c:444-461 | the appended text is the request line, the five signed lines in order, the list of names and the payload hash |
| Signer.BuildStringToSign | src/dynamodb_utilities.c:475-488 | the appended text is the algorithm, the time, the scope and the hash of the canonical request |
| Signer.Sign | src/dynamodb_utilities.c:401-502 | the signature is the expected one under the derived key, and the Authorization text carries it |
| Signer.BuildMessage | src/dynamodb_utilities.c:504-529 | the appended text prints the seven header fields and the payload |
| Signer.PutDynamodbHttpRequest | src/dynamodb_utilities.c:370-536 | parsing the bytes sent gives a POST of exactly this payload, time and credential for us-east-1 and dynamodb, whose target reads as version 20120810 and the name of exactly this operation, and a receiver following Signature Version 4 recomputes exactly the embedded signature, for all hash functions: if and only if the access key holds no comma, slash, carriage return, line feed or NUL |
| Signer.OperationReads | src/dynamodb_utilities.c:12-24 | each of the six operation texts reads as the version and its own name, and the text of any other as none |
| Signer.SignatureSpelled | src/dynamodb_utilities.c:401-502 | the signature is the digits of four nested HMACs and a fifth over the text to be signed, all of which is spelled out |
| Text.HexReads | src/dynamodb_utilities.c:436-441 | each pair of digits reads as its octet, the high digit first |
| Signer.ReceiverAgrees | src/dynamodb_utilities.c:444-502 | the receiver that sorts the signed names and rebuilds canonical request, string to sign and key gets the signature |
| Signer.MessageReads | src/dynamodb_utilities.c:504-532 | the printed message parses back and is correctly signed |
| Signer.AuthorizationParses | src/dynamodb_utilities.c:513-523 | the Authorization field parses into access key, date, region, service, the five names and the signature |
| Signer.ReadKeyIsAccessKey | src/dynamodb_utilities.c:513-515 | an access key that is read back from a message as it was holds none of the five characters |
| Signer.AllRequiredSigned | src/dynamodb_utilities.c:444-448 | the host field and every x-amz field is signed |
| Signer.NamesSorted | src/dynamodb_utilities.c:448 | the signed names are in the order the receiver sorts them into |
| Http.ParsePrinted | src/dynamodb_utilities.c:504-529 | reading a printed message gives verb, target, fields and body back; a field value with a carriage return, line feed or NUL is refused |
| Text.DecimalRoundTrip | src/dynamodb_utilities.c:425-429 | the printed content length reads back as the length |
| Config.BuildModule | src/utilities.c:199-222 | the object built for a module is its saved form |
| Config.Bridge.UpdateConfigFile | src/utilities.c:183-258 | the file holds the saved form of the settings, or part of its text or nothing, as far as the write after the truncation gets; if the truncation failed it may also keep the old text or hold a mixture |
| Config.LoadModule | src/utilities.c:711-750 | a module loads from its item by key, with zero for what is missing |
| Config.Bridge.LoadLocalConfig | src/utilities.c:664-793 | the pass over the keys gives each setting the value of its own key and leaves the others; an absent or empty file gives 1 and changes nothing; a text that is no object ends the process |
| Config.LoadingRestores | src/utilities.c:183-258 | loading what was saved restores every setting, with sizes equal to the list lengths, whatever was in memory |
| Config.KeyOrderIsIrrelevant | src/utilities.c:697-773 | any permutation of the keys loads the same settings |
| Config.FindIsMembership | src/utilities.c:697-773 | with distinct keys an object is a map |
| RemoteConfig.FindItems | src/utilities.c:327-342 | the items are used unless a count that is not accepted comes before them |
| RemoteConfig.UpdateSensors | src/utilities.c:260-372 | the module gets the addresses of the answer, or none if the request fails; an answer that does not parse ends the process |
| RemoteConfig.UpdateModules | src/utilities.c:465-515 | every item becomes a module, its sensors asked for in turn, unless one of these answers ends the process |
| RemoteConfig.UpdateCoreModule | src/utilities.c:374-528 | the modules in memory are dropped, then replaced and saved if the request is answered; an answer that does not parse ends the process with the file as it was |
| RemoteConfig.LoadRemoteConfig | src/utilities.c:530-662 | the update is the specified one, behind the version gate, of which the four rows on JSON below say what it does with the answers |
| RemoteConfig.InitData | src/utilities.c:801-835 | a start of the process is the specified one, including those that an answer ends |
| Published.OneItemIsTaken | src/utilities.c:602-618 | an answer with "Count" 1 and one item under "Items", in either order and among any other keys, makes that item the gateway's |
| Published.OtherCountsChangeNothing | src/utilities.c:604-613 | a "Count" of 0 or of 2 and more that comes before the items changes neither memory nor file |
| Published.OlderChangesNothing | src/utilities.c:621-632 | nor does an item whose "ConfigVersion" is not newer |
| Published.ArrivesAsPublished | src/utilities.c:374-662 | settings published as JSON under a newer version are what the next online start runs with, and what the file then keeps: gateway, modules with both addresses and protocol, and their sensors in order |
| Published.KeptIsLoaded | src/utilities.c:697-773 | a file whose object has the settings under their five keys, in any order, loads as these settings |
| Published.SavedKeeps | src/utilities.c:183-238 | what is written has them under these keys |
| ConfigTheorems.FileFollowsMemory | src/utilities.c:374-528 | after any start from a file, with or without a version offered, that no answer ends, memory and file agree if and only if nothing passed the gate, or the modules were answered and the file took what was written, or the update failed where there was nothing to lose; a start that is ended leaves the file |
| ConfigTheorems.FailuresLeaveFile | src/utilities.c:374-654 | over any number of starts the file changes only through one whose item passes the gate, being newer or without a version, and whose requests are answered readably |
| ConfigTheorems.OnlyLastRefetchCounts | src/utilities.c:621-654 | an item without a version replaces the modules at every online start: over any number of starts keys and version on file stay, and the settings are those of the last one that was answered |
| ConfigTheorems.SettledStays | src/utilities.c:801-835 | settings in step with the file come back at every later start that is offline or offered nothing newer, unless its first answer ends it |
| ConfigTheorems.UpdateSurvivesStarts | src/utilities.c:621-654 | so do the settings of a completed update, over any number of such starts |
| ConfigTheorems.PublishedArrivesInTheEnd | src/utilities.c:374-662 | settings published under a newer version arrive even after any number of starts that could not get the modules |
| ConfigTheorems.FailedUpdateIsRetried | src/utilities.c:374-654 | after any number of starts that could not get the modules, the next such start still finds the same version past the gate, and runs without any module |
| ConfigTheorems.ListedModulesArrive | src/utilities.c:337-515 | modules and sensors come out of the items that describe them, whatever the order of keys and attributes |
| ConfigTheorems.LostSensorsStayLost | src/utilities.c:493-504 | a module whose sensors could not be fetched has none at any later such start |
| ConfigTheorems.EmptyFileIsFinal | src/utilities.c:811-820 | no start gets past a file that is missing, empty or written in part, as an interrupted update leaves it, and none repairs it |
| ConfigTheorems.DeadHoldsNothing | src/utilities.c:811-820 | no start gets past a file, after whatever starts, if and only if it holds no settings |
| ConfigTheorems.InterruptedWriteIsFinal | src/utilities.c:183-258 | an update that got its answers leaves such a file if and only if the old text was cut and the new one not written as a whole, or a mixture of both does not parse; the next start gives up with 1 if nothing was written and is killed if a part was |
| ConfigTheorems.FileVersionNeverFalls | src/utilities.c:621-654 | over any number of starts, none of which mixes old and new text, a file that still holds settings holds no older version |
| Stream.SendRequest | src/dynamodb_utilities.c:340-351 | the send loop is the specified one, for every sequence of returns of write |
| Stream.SentIsBalanced | src/dynamodb_utilities.c:340-351 | octets put out equal octets counted plus failures; without failures they are the request up to the count |
| Stream.DoneIsExactWithoutErrors | src/dynamodb_utilities.c:344-349 | a completed transfer put out exactly the request if and only if no write failed, and the loop leaves the buffer exactly when failures outnumber octets put out |
| Stream.ZeroWriteEnds | src/dynamodb_utilities.c:344-348 | a write that returns 0 ends the transfer there |
| Stream.PartialWritesAreExact | src/dynamodb_utilities.c:343-351 | positive partial writes put the request out once and in order, and are done exactly when they add up to it |
| Stream.RecvTimeout | src/dynamodb_utilities.c:253-303 | the receive loop is the specified one |
| Stream.ResponseIsChunks | src/dynamodb_utilities.c:286-299 | the response is all chunks read, in order, up to the pass at which the time was over |
| Stream.EndsWhenTimeIsOver | src/dynamodb_utilities.c:266-299 | the loop has ended if and only if at one of its passes the timer had run for more than twice the timeout, or for more than the timeout with data there |
| Stream.SilenceEnds | src/dynamodb_utilities.c:266-284 | once reads stay negative the loop ends when twice the timeout has passed |
| Stream.ClosedStreamNeverEnds | src/dynamodb_utilities.c:286-299 | reads of any length, zero included, that follow each other within the timeout keep it going for ever |
| Codec.CalChecksum | src/utilities.c:58-71 | the checksum is the byte sum modulo 256 for every length up to 255, without overflow |
| Codec.GetBleCmdTempProbe | src/temp_probe_RS485_tsys01.c:28-39 | the built command is 0x03 0x08 0x01, the six octets of the address, and the sum of these nine modulo 256 |
| Codec.Frame | src/temp_probe_RS485_tsys01.c:28-39 | the frame passes the probe's check and carries the address in place |
| Codec.OneOctetChangesChecksum | src/utilities.c:58-71 | commands for addresses differing in one octet have different checksums |
| Codec.HexRoundTrip | src/utilities.c:19-56 | decoding the digits of any octets gives them back, singly and in pairs, at every position an 8-bit start can point to, the high octet of a pair first |
| Codec.HexDecodesExactly | src/utilities.c:5-56 | two characters survive decoding and encoding exactly when both are upper-case hexadecimal digits |
| Codec.Hex2Char | src/utilities.c:41-56 | writes the digit of the high and then that of the low half of an octet, in upper case, which decode to it, and nothing else |

## Left out

- Order of the scan: the SELECT has no ORDER BY; that SQLite returns rows in id order is an assumption (src/dynamodb_utilities.c:141-143).
- SQLite itself: SQL text, locking and the handles that early returns from a sync leave open (src/dynamodb_utilities.c:158-162, 185-192). Their effect on later inserts is covered by letting any insert fail. An error of the cursor ends a sync with result 0, as if it were done.
- What DynamoDB does with the same reading twice: the cloud is the list of accepted PUTs, so a repetition is visible.
- Response.SyncSingleRawData: a buffer without any zero octet makes the search for the three texts run past its end; the text then ends with the buffer. A receive loop that never ends, and an answer longer than the buffer, are not among the answers.
- Interleaving of producer and consumer threads inside the queue: the queue is atomic, and a push is a step between any two steps of the consumer.
- Discovery.DicoverChar: does not take peers that violate the attribute protocol: a block size of 0 would divide by zero and a value handle that does not grow would keep the search going. Replies to every other request are arbitrary.
- `connect_ble`, `set_sec_level`, `resolve_ip`, `check_internet`, `get_eth0_mac_addr`, socket creation: only their outcome. A closed descriptor is assumed not to be reused within a round.
- C buffers: capacities, terminators and NUL bytes. Sensor addresses are exactly six octets; all other strings are unbounded. So are the request buffers of 65535 octets and the nine digits of the content length.
- SHA-256 and HMAC: arbitrary functions, of which only the 32-octet digest is assumed.
- IEEE-754 and `%f`: a probe value is its four octets, a configuration version an exact real number.
- JSON text: printing and parsing are inverse and not modelled; a parsed object has distinct keys, a proper part of the text of an object is no object, and what follows the first object of a file is not looked at. An answer whose JSON parses to something other than an object or null is not modelled. Values of the wrong kind (a number where a text is expected) are not modelled: a text then reads as empty, a list as empty, a number as 0.
- Config.Bridge.UpdateConfigFile: a file that cannot be opened for writing makes the program use a null stream; the file is assumed to exist, which a successful load has shown.
- Producer.TimeoutCallback: the time at which the timer calls is a parameter, so intervals missed or met twice by the timer are not excluded. The program has one global socket; here each module has its own, all starting a round closed.
- The JSON payload of a PUT (src/dynamodb_utilities.c:35-77): the payload signed and sent is any text, and the reading stored is that of the row.
- RemoteConfig.UpdateSensors: the requests' JSON payloads are represented by the attribute they filter on, and their answers, whatever buffer they are read from, are arbitrary.
- Memory management and reference counts of json-c and GLib, debugging output, `free_defs`.
- src/simulation.c, the stub `send_payload_to_cloud` and the blocks that are commented out: no behaviour of the running gateway.
