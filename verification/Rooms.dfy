/**
 * The multiplayer room store: the `game_rooms`, `room_participants` and `participant_answers`
 * tables held in memory, and the operations that create and look up rooms, change a room's
 * status, let players join, and record their answers and scores.
 */
module Rooms {
  import opened Wrappers
  import opened Seqs
  import opened Text
  import opened QuizData

  /** Row ids, which the store hands out. */
  type RoomId = nat
  type ParticipantId = nat

  datatype RoomStatus = Waiting | Starting | InProgress | Finished

  datatype Language = Es | En

  /** A `game_rooms` row. Timestamps are whole clock ticks. */
  datatype GameRoom = GameRoom(
    id: RoomId,
    roomCode: string,
    difficulty: Difficulty,
    maxPlayers: int,
    status: RoomStatus,
    currentQuestionIndex: int,
    startedAt: Option<int>,
    createdAt: int,
    createdBy: Option<string>,
    language: Language,
    questionOrder: Option<seq<int>>)

  /** A `room_participants` row. */
  datatype Participant = Participant(
    id: ParticipantId,
    roomId: RoomId,
    playerName: string,
    avatarUrl: string,
    score: int,
    currentAnswer: Option<int>,
    answerTime: Option<int>,
    joinedAt: int)

  /** A `participant_answers` row; the points awarded are not part of it. */
  datatype AnswerRecord = AnswerRecord(
    participantId: ParticipantId,
    roomId: RoomId,
    questionIndex: int,
    selectedAnswer: int,
    isCorrect: bool,
    answerTime: int)

  /** The error replies of the operations. */
  datatype RoomError =
    | CodeExhausted        // no unused code in ten draws
    | RoomNotFound
    | AlreadyStarted
    | RoomFull
    | NameTaken
    | ParticipantNotFound

  const CodeAlphabet := "ABCDEFGHIJKLMNOPQRSTUVWXYZ0123456789"
  const CodeLength := 6
  const MaxCodeAttempts := 10

  // ----- Room codes -----

  /** One code's worth of random draws: six indices into the alphabet. */
  predicate IsDraw(draw: seq<int>)
  {
    |draw| == CodeLength && forall i :: 0 <= i < |draw| ==> 0 <= draw[i] < |CodeAlphabet|
  }

  /** Six characters, each from `A-Z0-9`. */
  predicate IsRoomCode(code: string)
  {
    |code| == CodeLength && forall i :: 0 <= i < |code| ==> IsUpper(code[i]) || IsDigit(code[i])
  }

  /** The alphabet is the 26 capitals followed by the 10 digits. */
  function AlphabetChar(k: nat): (c: char)
    requires k < 36
    ensures IsUpper(c) || IsDigit(c)
  {
    if k < 26 then ('A' as int + k) as char else ('0' as int + k - 26) as char
  }

  /** The position of an alphabet character. */
  function AlphabetIndex(c: char): (k: nat)
    requires IsUpper(c) || IsDigit(c)
    ensures k < 36 && AlphabetChar(k) == c
  {
    if IsUpper(c) then c as int - 'A' as int else 26 + c as int - '0' as int
  }

  lemma AlphabetLayout()
    ensures |CodeAlphabet| == 36
    ensures forall k :: 0 <= k < 36 ==> CodeAlphabet[k] == AlphabetChar(k)
  {
  }

  /** The code a draw spells. */
  function CodeOf(draw: seq<int>): (code: string)
    requires IsDraw(draw)
  {
    seq(CodeLength, i requires 0 <= i < CodeLength => CodeAlphabet[draw[i]])
  }

  /** The draw that spells a code. */
  function DrawOf(code: string): (draw: seq<int>)
    requires IsRoomCode(code)
    ensures IsDraw(draw)
  {
    AlphabetLayout();
    seq(CodeLength, i requires 0 <= i < CodeLength => AlphabetIndex(code[i]))
  }

  /** Every draw spells a room code, and reading the code back gives the draw. */
  lemma {:induction false} CodeOfRoundTrip(draw: seq<int>)
    requires IsDraw(draw)
    ensures IsRoomCode(CodeOf(draw))
    ensures DrawOf(CodeOf(draw)) == draw
  {
    AlphabetLayout();
    var code := CodeOf(draw);
    forall i | 0 <= i < CodeLength
      ensures (IsUpper(code[i]) || IsDigit(code[i])) && AlphabetIndex(code[i]) == draw[i]
    {
      assert code[i] == AlphabetChar(draw[i]);
    }
  }

  /** Every room code is spelled by exactly its own draw, so all 36^6 codes can come up. */
  lemma {:induction false} DrawOfRoundTrip(code: string)
    requires IsRoomCode(code)
    ensures CodeOf(DrawOf(code)) == code
  {
    AlphabetLayout();
  }

  /** `generateRoomCode`: append one alphabet character per draw, six times. */
  method GenerateRoomCode(draw: seq<int>) returns (code: string)
    requires IsDraw(draw)
    ensures code == CodeOf(draw)
    ensures IsRoomCode(code)
  {
    code := "";
    for i := 0 to CodeLength
      invariant |code| == i
      invariant forall j :: 0 <= j < i ==> code[j] == CodeAlphabet[draw[j]]
    {
      code := code + [CodeAlphabet[draw[i]]];
    }
    CodeOfRoundTrip(draw);
  }

  // ----- Table queries -----

  function RoomIndexById(rooms: seq<GameRoom>, id: RoomId): Option<nat>
  {
    FirstIndex(rooms, (r: GameRoom) => r.id == id)
  }

  function RoomIndexByCode(rooms: seq<GameRoom>, code: string): Option<nat>
  {
    FirstIndex(rooms, (r: GameRoom) => r.roomCode == code)
  }

  function ParticipantIndex(ps: seq<Participant>, id: ParticipantId): Option<nat>
  {
    FirstIndex(ps, (p: Participant) => p.id == id)
  }

  /** The existence check on a drawn code. */
  predicate CodeInUse(rooms: seq<GameRoom>, code: string)
  {
    RoomIndexByCode(rooms, code).Some?
  }

  /** The participants of a room, in table order. */
  function Members(ps: seq<Participant>, roomId: RoomId): seq<Participant>
  {
    Filter(ps, (p: Participant) => p.roomId == roomId)
  }

  /** Whether a player of that name is already in the room. */
  predicate NameInRoom(ps: seq<Participant>, roomId: RoomId, name: string)
  {
    FirstIndex(ps, (p: Participant) => p.roomId == roomId && p.playerName == name).Some?
  }

  // ----- Consistency of the tables -----

  predicate HasRoom(rooms: seq<GameRoom>, id: RoomId)
  {
    exists k :: 0 <= k < |rooms| && rooms[k].id == id
  }

  /** A room never holds more players than it allows (trivially so while it is empty). */
  predicate WithinCapacity(count: nat, maxPlayers: int)
  {
    count == 0 || count <= maxPlayers
  }

  ghost predicate RoomsConsistent(rooms: seq<GameRoom>, nextId: nat)
  {
    && (forall i :: 0 <= i < |rooms| ==> rooms[i].id < nextId && IsRoomCode(rooms[i].roomCode))
    && (forall i, j :: 0 <= i < j < |rooms| ==> rooms[i].id != rooms[j].id)
    && (forall i, j :: 0 <= i < j < |rooms| ==> rooms[i].roomCode != rooms[j].roomCode)
  }

  /** Participant ids are issued by the store, and join times increase along the table. */
  ghost predicate ParticipantRowsOrdered(ps: seq<Participant>, nextId: nat, clock: nat)
  {
    && (forall i :: 0 <= i < |ps| ==> ps[i].id < nextId && ps[i].joinedAt < clock)
    && (forall i, j :: 0 <= i < j < |ps| ==> ps[i].id != ps[j].id && ps[i].joinedAt < ps[j].joinedAt)
  }

  ghost predicate ParticipantsInRooms(rooms: seq<GameRoom>, ps: seq<Participant>)
  {
    forall i :: 0 <= i < |ps| ==> HasRoom(rooms, ps[i].roomId)
  }

  ghost predicate NamesUniquePerRoom(ps: seq<Participant>)
  {
    forall i, j :: 0 <= i < j < |ps| && ps[i].roomId == ps[j].roomId ==> ps[i].playerName != ps[j].playerName
  }

  ghost predicate RoomsWithinCapacity(rooms: seq<GameRoom>, ps: seq<Participant>)
  {
    forall k :: 0 <= k < |rooms| ==> WithinCapacity(|Members(ps, rooms[k].id)|, rooms[k].maxPlayers)
  }

  ghost predicate ParticipantsConsistent(rooms: seq<GameRoom>, ps: seq<Participant>, nextId: nat, clock: nat)
  {
    && ParticipantRowsOrdered(ps, nextId, clock)
    && ParticipantsInRooms(rooms, ps)
    && NamesUniquePerRoom(ps)
    && RoomsWithinCapacity(rooms, ps)
  }

  /**
   * The tables as the operations below keep them: unique room ids and codes, well-formed
   * codes, every participant in an existing room, join order by time, unique names per room,
   * and no room over capacity.
   */
  ghost predicate TablesConsistent(rooms: seq<GameRoom>, ps: seq<Participant>, nextId: nat, clock: nat)
  {
    RoomsConsistent(rooms, nextId) && ParticipantsConsistent(rooms, ps, nextId, clock)
  }

  // ----- Pure row transformations the operations apply -----

  /** The row `createGameRoom` inserts; the index starts at the table default 0. */
  function NewRoom(id: RoomId, code: string, d: Difficulty, maxPlayers: int, createdBy: string,
                   language: Language, shuffled: seq<Question>, now: int): (r: GameRoom)
    ensures r.status == Waiting && r.currentQuestionIndex == 0 && r.startedAt.None?
    ensures r.questionOrder == Some(Ids(shuffled))
    ensures r.roomCode == code && r.maxPlayers == maxPlayers && r.createdBy == Some(createdBy)
    ensures r.language == language && r.difficulty == d
  {
    GameRoom(id, code, d, maxPlayers, Waiting, 0, None, now, Some(createdBy), language, Some(Ids(shuffled)))
  }

  /**
   * The row `updateRoomStatus` writes: always the status; the index only for `in_progress`
   * with an index given; a fresh start time on every `in_progress` update. Any status may
   * follow any other.
   */
  function WithStatus(room: GameRoom, status: RoomStatus, questionIndex: Option<int>, now: int): (r: GameRoom)
    ensures r.status == status
    ensures r.currentQuestionIndex == (if status == InProgress && questionIndex.Some? then questionIndex.value
                                       else room.currentQuestionIndex)
    ensures r.startedAt == (if status == InProgress then Some(now) else room.startedAt)
    ensures r.(status := room.status, currentQuestionIndex := room.currentQuestionIndex,
               startedAt := room.startedAt) == room
  {
    var r := room.(status := status);
    var r := if status == InProgress && questionIndex.Some? then r.(currentQuestionIndex := questionIndex.value) else r;
    if status == InProgress then r.(startedAt := Some(now)) else r
  }

  /** The first check `addParticipant` fails, in its order, or `None` when the player may join. */
  function JoinCheck(rooms: seq<GameRoom>, ps: seq<Participant>, roomId: RoomId, name: string): (e: Option<RoomError>)
    ensures RoomIndexById(rooms, roomId).None? <==> e == Some(RoomNotFound)
  {
    match RoomIndexById(rooms, roomId)
    case None => Some(RoomNotFound)
    case Some(k) =>
      if rooms[k].status != Waiting then Some(AlreadyStarted)
      else if |Members(ps, roomId)| >= rooms[k].maxPlayers then Some(RoomFull)
      else if NameInRoom(ps, roomId, name) then Some(NameTaken)
      else None
  }

  /** The participant rows after `updateParticipantAnswer`. */
  function WithPendingAnswer(ps: seq<Participant>, id: ParticipantId, answer: int, answerTime: int): seq<Participant>
  {
    match ParticipantIndex(ps, id)
    case None => ps
    case Some(k) => ps[k := ps[k].(currentAnswer := Some(answer), answerTime := Some(answerTime))]
  }

  /** The participant rows after the score is read and written back increased by `points`. */
  function CreditScore(ps: seq<Participant>, id: ParticipantId, points: int): seq<Participant>
  {
    match ParticipantIndex(ps, id)
    case None => ps
    case Some(k) => ps[k := ps[k].(score := ps[k].score + points)]
  }

  /** The first of the ten drawn codes, from attempt `from` on, that no room holds. */
  function FirstUnusedCode(rooms: seq<GameRoom>, draws: seq<seq<int>>, from: nat): (r: Option<string>)
    requires |draws| >= MaxCodeAttempts && forall k :: 0 <= k < |draws| ==> IsDraw(draws[k])
    ensures r.None? ==> forall k :: from <= k < MaxCodeAttempts ==> CodeInUse(rooms, CodeOf(draws[k]))
    ensures r.Some? ==> !CodeInUse(rooms, r.value) && IsRoomCode(r.value)
    ensures r.Some? ==> exists k :: from <= k < MaxCodeAttempts && r.value == CodeOf(draws[k])
                          && forall j :: from <= j < k ==> CodeInUse(rooms, CodeOf(draws[j]))
    decreases MaxCodeAttempts - from
  {
    if from >= MaxCodeAttempts then None
    else if !CodeInUse(rooms, CodeOf(draws[from])) then
      CodeOfRoundTrip(draws[from]);
      Some(CodeOf(draws[from]))
    else FirstUnusedCode(rooms, draws, from + 1)
  }

  // ----- Lemmas about the row transformations -----

  lemma {:induction false} MembersAppend(ps: seq<Participant>, p: Participant, roomId: RoomId)
    ensures Members(ps + [p], roomId) == Members(ps, roomId) + (if p.roomId == roomId then [p] else [])
  {
    FilterAppend(ps, p, (q: Participant) => q.roomId == roomId);
  }

  lemma {:induction false} MembersEmpty(ps: seq<Participant>, roomId: RoomId)
    requires forall i :: 0 <= i < |ps| ==> ps[i].roomId != roomId
    ensures Members(ps, roomId) == []
  {
    if ps != [] {
      MembersEmpty(ps[1..], roomId);
    }
  }

  /** Rows agreeing on id, room, name and join time: updates of answers and scores keep these. */
  ghost predicate SameRoster(ps: seq<Participant>, qs: seq<Participant>)
  {
    && |ps| == |qs|
    && forall i :: 0 <= i < |ps| ==>
         ps[i].id == qs[i].id && ps[i].roomId == qs[i].roomId
         && ps[i].playerName == qs[i].playerName && ps[i].joinedAt == qs[i].joinedAt
  }

  lemma {:induction false} SameRosterKeepsConsistency(rooms: seq<GameRoom>, ps: seq<Participant>, qs: seq<Participant>, nextId: nat, clock: nat)
    requires ParticipantsConsistent(rooms, ps, nextId, clock)
    requires SameRoster(ps, qs)
    ensures ParticipantsConsistent(rooms, qs, nextId, clock)
  {
    forall k | 0 <= k < |rooms|
      ensures WithinCapacity(|Members(qs, rooms[k].id)|, rooms[k].maxPlayers)
    {
      var rid := rooms[k].id;
      FilterLengthAgrees(ps, qs, (p: Participant) => p.roomId == rid);
    }
  }

  /** Rooms agreeing on id, code and capacity: status updates keep these. */
  ghost predicate SameRoomKeys(rooms: seq<GameRoom>, other: seq<GameRoom>)
  {
    && |rooms| == |other|
    && forall i :: 0 <= i < |rooms| ==>
         rooms[i].id == other[i].id && rooms[i].roomCode == other[i].roomCode
         && rooms[i].maxPlayers == other[i].maxPlayers
  }

  lemma {:induction false} SameRoomKeysKeepConsistency(rooms: seq<GameRoom>, other: seq<GameRoom>, ps: seq<Participant>, nextId: nat, clock: nat)
    requires TablesConsistent(rooms, ps, nextId, clock)
    requires SameRoomKeys(rooms, other)
    ensures TablesConsistent(other, ps, nextId, clock)
  {
    forall i | 0 <= i < |ps| ensures HasRoom(other, ps[i].roomId) {
      var k :| 0 <= k < |rooms| && rooms[k].id == ps[i].roomId;
      assert other[k].id == ps[i].roomId;
    }
  }

  /** A status update changes only the status, the index and the start time of the room. */
  lemma {:induction false} StatusUpdateKeepsConsistency(rooms: seq<GameRoom>, ps: seq<Participant>, nextId: nat, clock: nat,
                                                        k: nat, status: RoomStatus, questionIndex: Option<int>, now: int)
    requires TablesConsistent(rooms, ps, nextId, clock)
    requires k < |rooms|
    ensures TablesConsistent(rooms[k := WithStatus(rooms[k], status, questionIndex, now)], ps, nextId, clock)
  {
    SameRoomKeysKeepConsistency(rooms, rooms[k := WithStatus(rooms[k], status, questionIndex, now)], ps, nextId, clock);
  }

  /** Inserting a room with a fresh id and an unused code keeps the tables consistent; it starts empty. */
  lemma {:induction false} InsertRoomKeepsConsistency(rooms: seq<GameRoom>, ps: seq<Participant>, nextId: nat, clock: nat, room: GameRoom)
    requires TablesConsistent(rooms, ps, nextId, clock)
    requires room.id == nextId && IsRoomCode(room.roomCode) && !CodeInUse(rooms, room.roomCode)
    ensures TablesConsistent(rooms + [room], ps, nextId + 1, clock + 1)
    ensures Members(ps, room.id) == []
  {
    var rooms' := rooms + [room];
    InsertRoomKeepsRooms(rooms, nextId, room);
    forall i | 0 <= i < |ps| ensures ps[i].roomId != nextId && HasRoom(rooms', ps[i].roomId) {
      var k :| 0 <= k < |rooms| && rooms[k].id == ps[i].roomId;
      assert rooms'[k].id == ps[i].roomId;
    }
    MembersEmpty(ps, nextId);
    assert RoomsWithinCapacity(rooms', ps) by {
      forall k | 0 <= k < |rooms'|
        ensures WithinCapacity(|Members(ps, rooms'[k].id)|, rooms'[k].maxPlayers)
      {
        if k < |rooms| { assert rooms'[k] == rooms[k]; }
      }
    }
    assert ParticipantRowsOrdered(ps, nextId + 1, clock + 1);
  }

  lemma {:induction false} InsertRoomKeepsRooms(rooms: seq<GameRoom>, nextId: nat, room: GameRoom)
    requires RoomsConsistent(rooms, nextId)
    requires room.id == nextId && IsRoomCode(room.roomCode) && !CodeInUse(rooms, room.roomCode)
    ensures RoomsConsistent(rooms + [room], nextId + 1)
  {
    var rooms' := rooms + [room];
    forall i, j | 0 <= i < j < |rooms'|
      ensures rooms'[i].id != rooms'[j].id && rooms'[i].roomCode != rooms'[j].roomCode
    {
      if j == |rooms| {
        assert rooms'[i] == rooms[i];
      }
    }
  }

  /** A join that passes every check keeps the tables consistent: the room stays within capacity and names stay unique. */
  lemma {:induction false} JoinKeepsConsistency(rooms: seq<GameRoom>, ps: seq<Participant>, nextId: nat, clock: nat,
                                                roomId: RoomId, name: string, avatarUrl: string)
    requires TablesConsistent(rooms, ps, nextId, clock)
    requires JoinCheck(rooms, ps, roomId, name).None?
    ensures TablesConsistent(rooms, ps + [Participant(nextId, roomId, name, avatarUrl, 0, None, None, clock)], nextId + 1, clock + 1)
  {
    var p := Participant(nextId, roomId, name, avatarUrl, 0, None, None, clock);
    var ps' := ps + [p];
    var r := RoomIndexById(rooms, roomId).value;
    assert RoomsConsistent(rooms, nextId + 1);
    JoinKeepsOrder(ps, nextId, clock, p);
    assert ParticipantsInRooms(rooms, ps') by {
      assert rooms[r].id == roomId;
      forall i | 0 <= i < |ps'| ensures HasRoom(rooms, ps'[i].roomId) {
        if i < |ps| { assert ps'[i] == ps[i]; }
      }
    }
    JoinKeepsNamesUnique(ps, p);
    JoinKeepsCapacity(rooms, ps, nextId, roomId, name, p);
  }

  lemma {:induction false} JoinKeepsOrder(ps: seq<Participant>, nextId: nat, clock: nat, p: Participant)
    requires ParticipantRowsOrdered(ps, nextId, clock)
    requires p.id == nextId && p.joinedAt == clock
    ensures ParticipantRowsOrdered(ps + [p], nextId + 1, clock + 1)
  {
    var ps' := ps + [p];
    forall i, j | 0 <= i < j < |ps'| ensures ps'[i].id != ps'[j].id && ps'[i].joinedAt < ps'[j].joinedAt {
      assert ps'[i] == ps[i];
    }
  }

  lemma {:induction false} JoinKeepsNamesUnique(ps: seq<Participant>, p: Participant)
    requires NamesUniquePerRoom(ps)
    requires !NameInRoom(ps, p.roomId, p.playerName)
    ensures NamesUniquePerRoom(ps + [p])
  {
    var ps' := ps + [p];
    forall i, j | 0 <= i < j < |ps'| && ps'[i].roomId == ps'[j].roomId
      ensures ps'[i].playerName != ps'[j].playerName
    {
      assert ps'[i] == ps[i];
    }
  }

  /** A join that passes the checks never takes its room over `max_players`. */
  lemma {:induction false} JoinKeepsCapacity(rooms: seq<GameRoom>, ps: seq<Participant>, nextId: nat,
                                             roomId: RoomId, name: string, p: Participant)
    requires RoomsConsistent(rooms, nextId) && RoomsWithinCapacity(rooms, ps)
    requires JoinCheck(rooms, ps, roomId, name).None? && p.roomId == roomId
    ensures RoomsWithinCapacity(rooms, ps + [p])
  {
    var r := RoomIndexById(rooms, roomId).value;
    forall k | 0 <= k < |rooms| ensures WithinCapacity(|Members(ps + [p], rooms[k].id)|, rooms[k].maxPlayers) {
      MembersAppend(ps, p, rooms[k].id);
      if rooms[k].id == roomId {
        assert rooms[k] == rooms[r];
      }
    }
  }

  /** A join refused for any reason names the first failing check in the order of the code. */
  lemma JoinCheckOrder(rooms: seq<GameRoom>, ps: seq<Participant>, roomId: RoomId, name: string)
    requires RoomIndexById(rooms, roomId).Some?
    ensures var room := rooms[RoomIndexById(rooms, roomId).value];
      && (room.status != Waiting ==> JoinCheck(rooms, ps, roomId, name) == Some(AlreadyStarted))
      && (room.status == Waiting && |Members(ps, roomId)| >= room.maxPlayers ==>
            JoinCheck(rooms, ps, roomId, name) == Some(RoomFull))
      && (room.status == Waiting && |Members(ps, roomId)| < room.maxPlayers ==>
            (JoinCheck(rooms, ps, roomId, name) == Some(NameTaken) <==> NameInRoom(ps, roomId, name)))
  {
  }

  /** The credit goes to the named participant alone, by exactly `points`. */
  lemma {:induction false} CreditScoreEffect(ps: seq<Participant>, id: ParticipantId, points: int)
    ensures SameRoster(ps, CreditScore(ps, id, points))
    ensures forall i :: 0 <= i < |ps| && ps[i].id != id ==> CreditScore(ps, id, points)[i] == ps[i]
    ensures ParticipantIndex(ps, id).Some? ==>
      var k := ParticipantIndex(ps, id).value;
      CreditScore(ps, id, points)[k] == ps[k].(score := ps[k].score + points)
  {
  }

  /** There is no duplicate check: crediting the same answer twice credits twice. */
  lemma {:induction false} CreditTwice(ps: seq<Participant>, id: ParticipantId, points: int)
    requires ParticipantIndex(ps, id).Some?
    ensures var k := ParticipantIndex(ps, id).value;
      CreditScore(CreditScore(ps, id, points), id, points)[k].score == ps[k].score + 2 * points
  {
    var k := ParticipantIndex(ps, id).value;
    var once := CreditScore(ps, id, points);
    assert once[k].id == id;
    var k' := ParticipantIndex(once, id).value;
    assert k' == k by {
      forall j | 0 <= j < k ensures once[j].id != id { assert once[j] == ps[j]; }
    }
  }

  /** A pending answer is set together with its time, on the named participant only. */
  lemma {:induction false} PendingAnswerEffect(ps: seq<Participant>, id: ParticipantId, answer: int, answerTime: int)
    ensures SameRoster(ps, WithPendingAnswer(ps, id, answer, answerTime))
    ensures forall i :: 0 <= i < |ps| && ps[i].id != id ==> WithPendingAnswer(ps, id, answer, answerTime)[i] == ps[i]
    ensures ParticipantIndex(ps, id).Some? ==>
      var k := ParticipantIndex(ps, id).value;
      WithPendingAnswer(ps, id, answer, answerTime)[k]
        == ps[k].(currentAnswer := Some(answer), answerTime := Some(answerTime))
  {
  }

  /** Join order: the participants of a room come out with strictly increasing join times. */
  lemma {:induction false} MembersInJoinOrder(ps: seq<Participant>, roomId: RoomId)
    requires forall i, j :: 0 <= i < j < |ps| ==> ps[i].joinedAt < ps[j].joinedAt
    ensures var m := Members(ps, roomId);
      forall i, j :: 0 <= i < j < |m| ==> m[i].joinedAt < m[j].joinedAt
  {
    if ps != [] {
      MembersInJoinOrder(ps[1..], roomId);
      var rest := Members(ps[1..], roomId);
      forall x | x in rest ensures ps[0].joinedAt < x.joinedAt {
        var j :| 0 <= j < |ps[1..]| && ps[1..][j] == x;
        assert ps[j + 1] == x;
      }
    }
  }

  /** Upper-casing a stored code changes nothing, so any spelling of it in lower case finds the room. */
  lemma {:induction false} CodeCaseInsensitive(code: string)
    requires IsRoomCode(code)
    ensures ToUpper(ToLower(code)) == code
    ensures ToUpper(code) == code
  {
  }

  /** No transition guard: a finished room can be put back in progress, at an earlier question. */
  lemma StatusMayGoBack(room: GameRoom, now: int)
    requires room.status == Finished && room.currentQuestionIndex == 4
    ensures WithStatus(room, InProgress, Some(0), now).status == InProgress
    ensures WithStatus(room, InProgress, Some(0), now).currentQuestionIndex == 0
  {
  }

  // ----- The store -----

  class Database {
    var rooms: seq<GameRoom>
    var participants: seq<Participant>
    var answers: seq<AnswerRecord>
    var nextId: nat   // the next row id the store hands out
    var clock: nat    // the store's clock, for the `created_at` and `joined_at` defaults

    ghost predicate Valid()
      reads this
    {
      TablesConsistent(rooms, participants, nextId, clock)
    }

    constructor ()
      ensures Valid()
      ensures rooms == [] && participants == [] && answers == []
    {
      rooms, participants, answers := [], [], [];
      nextId, clock := 0, 0;
    }

    /** `getRoomById`. */
    function RoomById(id: RoomId): (r: Option<GameRoom>)
      reads this
      ensures r.Some? ==> r.value in rooms && r.value.id == id
      ensures r.None? <==> !HasRoom(rooms, id)
    {
      match RoomIndexById(rooms, id)
      case None => None
      case Some(k) => Some(rooms[k])
    }

    /** `getRoomByCode`: the lookup is on the upper-cased code. */
    function RoomByCode(code: string): (r: Option<GameRoom>)
      reads this
      ensures r.Some? ==> r.value in rooms && r.value.roomCode == ToUpper(code)
      ensures r.None? <==> forall i :: 0 <= i < |rooms| ==> rooms[i].roomCode != ToUpper(code)
    {
      match RoomIndexByCode(rooms, ToUpper(code))
      case None => None
      case Some(k) => Some(rooms[k])
    }

    /** `getRoomParticipants`: the room's participants, in order of joining. */
    function RoomParticipants(roomId: RoomId): (m: seq<Participant>)
      reads this
      requires Valid()
      ensures forall p :: p in m <==> p in participants && p.roomId == roomId
      ensures forall i, j :: 0 <= i < j < |m| ==> m[i].joinedAt < m[j].joinedAt
    {
      MembersInJoinOrder(participants, roomId);
      Members(participants, roomId)
    }

    /**
     * The code loop of `createGameRoom`: each attempt draws a code and looks it up; the first
     * code no room holds ends the loop, and ten codes in use give up.
     */
    method FindUnusedCode(draws: seq<seq<int>>) returns (code: Option<string>)
      requires |draws| >= MaxCodeAttempts && forall k :: 0 <= k < |draws| ==> IsDraw(draws[k])
      ensures code == FirstUnusedCode(rooms, draws, 0)
      ensures code.Some? ==> IsRoomCode(code.value) && forall i :: 0 <= i < |rooms| ==> rooms[i].roomCode != code.value
    {
      var roomCode := "";
      var isUnique := false;
      var attempts := 0;
      while !isUnique && attempts < MaxCodeAttempts
        invariant 0 <= attempts <= MaxCodeAttempts
        invariant isUnique ==> FirstUnusedCode(rooms, draws, 0) == Some(roomCode)
        invariant !isUnique ==> FirstUnusedCode(rooms, draws, 0) == FirstUnusedCode(rooms, draws, attempts)
      {
        roomCode := GenerateRoomCode(draws[attempts]);
        if RoomIndexByCode(rooms, roomCode).None? {
          isUnique := true;
        }
        attempts := attempts + 1;
      }
      code := if isUnique then Some(roomCode) else None;
    }

    /**
     * `createGameRoom`: up to ten codes are drawn, each checked against the table; with none
     * unused the store is left as it was. Otherwise the room is inserted waiting, with the ids
     * of the shuffled tier as its question order and the language Spanish unless one is given.
     */
    method CreateGameRoom(difficulty: Difficulty, maxPlayers: int, createdBy: string,
                          draws: seq<seq<int>>, shuffled: seq<Question>, language: Language := Es)
      returns (r: Result<GameRoom, RoomError>)
      requires Valid()
      requires |draws| >= MaxCodeAttempts && forall k :: 0 <= k < |draws| ==> IsDraw(draws[k])
      modifies this
      ensures Valid()
      ensures participants == old(participants) && answers == old(answers)
      ensures FirstUnusedCode(old(rooms), draws, 0).None? ==>
                (r == Err(CodeExhausted) && rooms == old(rooms) && nextId == old(nextId) && clock == old(clock))
      ensures FirstUnusedCode(old(rooms), draws, 0).Some? ==>
                (r == Ok(NewRoom(old(nextId), FirstUnusedCode(old(rooms), draws, 0).value, difficulty, maxPlayers,
                                 createdBy, language, shuffled, old(clock)))
                 && rooms == old(rooms) + [r.value])
    {
      var found := FindUnusedCode(draws);
      if found.None? {
        return Err(CodeExhausted);
      }
      var roomCode := found.value;
      var room := NewRoom(nextId, roomCode, difficulty, maxPlayers, createdBy, language, shuffled, clock);
      InsertRoomKeepsConsistency(rooms, participants, nextId, clock, room);
      rooms, nextId, clock := rooms + [room], nextId + 1, clock + 1;
      assert TablesConsistent(rooms, participants, nextId, clock);
      r := Ok(room);
    }

    /** `updateRoomStatus`: rewrites the room's status fields by `WithStatus`; a missing room changes nothing. */
    method UpdateRoomStatus(roomId: RoomId, status: RoomStatus, questionIndex: Option<int>, now: int)
      returns (r: Result<GameRoom, RoomError>)
      requires Valid()
      modifies this
      ensures Valid()
      ensures participants == old(participants) && answers == old(answers)
      ensures nextId == old(nextId) && clock == old(clock)
      ensures RoomIndexById(old(rooms), roomId).None? ==> (r == Err(RoomNotFound) && rooms == old(rooms))
      ensures RoomIndexById(old(rooms), roomId).Some? ==>
                var k := RoomIndexById(old(rooms), roomId).value;
                (r == Ok(WithStatus(old(rooms)[k], status, questionIndex, now))
                 && rooms == old(rooms)[k := r.value])
    {
      match RoomIndexById(rooms, roomId)
      case None =>
        r := Err(RoomNotFound);
      case Some(k) =>
        var updated := WithStatus(rooms[k], status, questionIndex, now);
        StatusUpdateKeepsConsistency(rooms, participants, nextId, clock, k, status, questionIndex, now);
        rooms := rooms[k := updated];
        assert TablesConsistent(rooms, participants, nextId, clock);
        r := Ok(updated);
    }

    /** `addParticipant`: the checks of `JoinCheck`, in order; a refused join changes nothing, otherwise one row with score 0. */
    method AddParticipant(roomId: RoomId, playerName: string, avatarUrl: string)
      returns (r: Result<Participant, RoomError>)
      requires Valid()
      modifies this
      ensures Valid()
      ensures rooms == old(rooms) && answers == old(answers)
      ensures JoinCheck(old(rooms), old(participants), roomId, playerName).Some? ==>
                (r == Err(JoinCheck(old(rooms), old(participants), roomId, playerName).value)
                 && participants == old(participants) && nextId == old(nextId) && clock == old(clock))
      ensures JoinCheck(old(rooms), old(participants), roomId, playerName).None? ==>
                (r == Ok(Participant(old(nextId), roomId, playerName, avatarUrl, 0, None, None, old(clock)))
                 && participants == old(participants) + [r.value])
    {
      var check := JoinCheck(rooms, participants, roomId, playerName);
      if check.Some? {
        return Err(check.value);
      }
      var p := Participant(nextId, roomId, playerName, avatarUrl, 0, None, None, clock);
      JoinKeepsConsistency(rooms, participants, nextId, clock, roomId, playerName, avatarUrl);
      participants, nextId, clock := participants + [p], nextId + 1, clock + 1;
      assert TablesConsistent(rooms, participants, nextId, clock);
      r := Ok(p);
    }

    /** `updateParticipantAnswer`: sets the pending answer and its time on that participant. */
    method UpdateParticipantAnswer(participantId: ParticipantId, answer: int, answerTime: int)
      returns (r: Result<Participant, RoomError>)
      requires Valid()
      modifies this
      ensures Valid()
      ensures rooms == old(rooms) && answers == old(answers) && nextId == old(nextId) && clock == old(clock)
      ensures participants == WithPendingAnswer(old(participants), participantId, answer, answerTime)
      ensures ParticipantIndex(old(participants), participantId).None? <==> r == Err(ParticipantNotFound)
      ensures r.Ok? ==> r.value == participants[ParticipantIndex(old(participants), participantId).value]
    {
      PendingAnswerEffect(participants, participantId, answer, answerTime);
      SameRosterKeepsConsistency(rooms, participants, WithPendingAnswer(participants, participantId, answer, answerTime), nextId, clock);
      var k := ParticipantIndex(participants, participantId);
      participants := WithPendingAnswer(participants, participantId, answer, answerTime);
      assert TablesConsistent(rooms, participants, nextId, clock);
      if k.None? {
        r := Err(ParticipantNotFound);
      } else {
        r := Ok(participants[k.value]);
      }
    }

    /**
     * The score update of `saveParticipantAnswer`: the score is read, then written back
     * increased by `points`; a missing participant changes nothing.
     */
    method CreditParticipant(participantId: ParticipantId, points: int)
      requires Valid()
      modifies this
      ensures Valid()
      ensures rooms == old(rooms) && answers == old(answers) && nextId == old(nextId) && clock == old(clock)
      ensures participants == CreditScore(old(participants), participantId, points)
    {
      var found := ParticipantIndex(participants, participantId);
      if found.Some? {
        var k := found.value;
        var score := participants[k].score;
        var updated := participants[k := participants[k].(score := score + points)];
        assert updated == CreditScore(participants, participantId, points);
        CreditScoreEffect(participants, participantId, points);
        SameRosterKeepsConsistency(rooms, participants, updated, nextId, clock);
        participants := updated;
        assert TablesConsistent(rooms, participants, nextId, clock);
      }
    }

    /**
     * `saveParticipantAnswer`: appends the answer row, then, only for a correct answer, reads
     * the participant's score and writes it back increased by `points`.
     */
    method SaveParticipantAnswer(participantId: ParticipantId, roomId: RoomId, questionIndex: int,
                                 selectedAnswer: int, isCorrect: bool, answerTime: int, points: int)
      returns (rec: AnswerRecord)
      requires Valid()
      modifies this
      ensures Valid()
      ensures rooms == old(rooms) && nextId == old(nextId) && clock == old(clock)
      ensures rec == AnswerRecord(participantId, roomId, questionIndex, selectedAnswer, isCorrect, answerTime)
      ensures answers == old(answers) + [rec]
      ensures participants == if isCorrect then CreditScore(old(participants), participantId, points)
                              else old(participants)
    {
      rec := AnswerRecord(participantId, roomId, questionIndex, selectedAnswer, isCorrect, answerTime);
      answers := answers + [rec];
      if isCorrect {
        CreditParticipant(participantId, points);
      }
    }
  }

  /** A room created from a shuffle of its tier gets a question order holding each question id exactly once. */
  lemma {:induction false} QuestionOrderIsPermutation(d: Difficulty, shuffled: seq<Question>)
    requires multiset(shuffled) == multiset(Tier(d))
    ensures multiset(Ids(shuffled)) == multiset{1, 2, 3, 4, 5}
  {
    IdsOfPermutation(shuffled, Tier(d));
    TierIds(d);
  }

  /** Permuting questions permutes their ids. */
  lemma IdsOfPermutation(a: seq<Question>, b: seq<Question>)
    requires multiset(a) == multiset(b)
    ensures multiset(Ids(a)) == multiset(Ids(b))
  {
    MapPermutation(a, b, (q: Question) => q.id);
  }
}
