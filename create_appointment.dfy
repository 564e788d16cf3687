/**
 * The "Schedule Appointment" dialog: the form schema, the date picker's
 * cut-off, how the inserted row is built, the submit sequence (upload the
 * recorded clip, then insert the row) and the recording/playback buttons.
 *
 * The browser's media recorder and audio element are reduced to the flags
 * the dialog keeps about them; the store's answers (upload, insert) and the
 * microphone permission are parameters; store requests are logged in order.
 */
module CreateAppointment {
  import opened Wrappers
  import opened Text
  import opened AppointmentQuery

  // ---------------------------------------------------------------------------
  // The form schema
  // ---------------------------------------------------------------------------

  /** `title: z.string().min(2)` */
  predicate TitleValid(title: string) {
    |title| >= 2
  }

  /** `description: z.string().min(10).optional().or(z.literal(""))` */
  predicate DescriptionValid(description: Option<string>) {
    match description
    case None => true
    case Some(d) => |d| >= 10 || d == ""
  }

  /** `[0-1]?[0-9]|2[0-3]`: one digit, or 0/1 then a digit, or 2 then 0 to 3. */
  predicate HourField(h: string) {
    (|h| == 1 && IsDigit(h[0]))
    || (|h| == 2 && '0' <= h[0] <= '1' && IsDigit(h[1]))
    || (|h| == 2 && h[0] == '2' && '0' <= h[1] <= '3')
  }

  /** `[0-5][0-9]` */
  predicate MinuteField(m: string) {
    |m| == 2 && '0' <= m[0] <= '5' && IsDigit(m[1])
  }

  /** `^([0-1]?[0-9]|2[0-3]):[0-5][0-9]$`, with the colon where it must be: three from the end. */
  predicate TimeValid(s: string) {
    |s| >= 4 && s[|s| - 3] == ':' && HourField(s[..|s| - 3]) && MinuteField(s[|s| - 2..])
  }

  /** The pattern read off the regular expression: some colon splits the text into the two fields. */
  ghost predicate TimePattern(s: string) {
    exists k :: 0 <= k < |s| && s[k] == ':' && HourField(s[..k]) && MinuteField(s[k + 1..])
  }

  lemma TimeValidIsPattern(s: string)
    ensures TimeValid(s) <==> TimePattern(s)
  {
    if TimePattern(s) {
      var k :| 0 <= k < |s| && s[k] == ':' && HourField(s[..k]) && MinuteField(s[k + 1..]);
      assert k == |s| - 3;
    }
    if TimeValid(s) {
      var k := |s| - 3;
      assert s[k + 1..] == s[|s| - 2..];
    }
  }

  /**
   * What the pattern accepts: an hour of one or two digits with value 0 to
   * 23, a colon, and exactly two minute digits with value 0 to 59.
   */
  lemma {:induction false} TimeValidMeaning(s: string)
    ensures TimeValid(s) <==>
              4 <= |s| <= 5 && s[|s| - 3] == ':'
              && AllDigits(s[..|s| - 3]) && AllDigits(s[|s| - 2..])
              && Value(s[..|s| - 3]) <= 23 && Value(s[|s| - 2..]) <= 59
  {
    if 4 <= |s| <= 5 && s[|s| - 3] == ':' && AllDigits(s[..|s| - 3]) && AllDigits(s[|s| - 2..]) {
      var h, m := s[..|s| - 3], s[|s| - 2..];
      TwoDigitValue(m);
      if |h| == 1 {
        assert h[..0] == [];
      } else {
        TwoDigitValue(h);
      }
    }
  }

  lemma TwoDigitValue(s: string)
    requires |s| == 2 && AllDigits(s)
    ensures Value(s) == 10 * DigitValue(s[0]) + DigitValue(s[1])
  {
    var first := s[..1];
    assert first[..0] == [];
    assert Value(first) == DigitValue(s[0]);
  }

  /** The text a time input produces, `HH:MM`, is accepted for every time of day. */
  lemma ClockTextAccepted(hour: nat, minute: nat)
    requires hour < 24 && minute < 60
    ensures TimeValid(Padded(hour, 2) + ":" + Padded(minute, 2))
  {
    var h, m := Padded(hour, 2), Padded(minute, 2);
    PaddedLength(hour, 2);
    PaddedLength(minute, 2);
    PaddedRoundTrip(hour, 2);
    PaddedRoundTrip(minute, 2);
    var s := h + ":" + m;
    assert s[..|s| - 3] == h && s[|s| - 2..] == m;
    TimeValidMeaning(s);
  }

  /** An unpadded hour is accepted too, as in "9:30". */
  lemma ShortHourAccepted(hour: nat, minute: nat)
    requires hour < 10 && minute < 60
    ensures TimeValid(Decimal(hour) + ":" + Padded(minute, 2))
  {
    var m := Padded(minute, 2);
    PaddedLength(minute, 2);
    PaddedRoundTrip(minute, 2);
    ValueOfDecimal(hour);
    var s := Decimal(hour) + ":" + m;
    assert s[..|s| - 3] == Decimal(hour) && s[|s| - 2..] == m;
    TimeValidMeaning(s);
  }

  lemma TimeExamples()
    ensures TimeValid("9:30") && TimeValid("09:30") && TimeValid("23:59") && TimeValid("0:00")
    ensures !TimeValid("24:00") && !TimeValid("12:60") && !TimeValid("9:5") && !TimeValid("123:00")
  {
  }

  datatype CalendarDate = CalendarDate(year: nat, month: nat, day: nat)

  /** The form's values; an absent field is `undefined`. */
  datatype FormValues = FormValues(
    title: string,
    description: Option<string>,
    date: Option<CalendarDate>,
    time: string,
    userId: Option<string>,
    audioMessage: Option<string>)

  /** The form's `defaultValues` (no date and no invitee). */
  const DefaultValues: FormValues := FormValues("", Some(""), None, "", None, Some(""))

  /** Every field of the schema accepts its value (a date and an invitee id are required). */
  predicate FormValid(v: FormValues) {
    TitleValid(v.title)
    && DescriptionValid(v.description)
    && v.date.Some?
    && TimeValid(v.time)
    && v.userId.Some?
  }

  /**
   * The ways values fail the schema: a title under two characters, a
   * description of one to nine characters, no date, a time the pattern
   * refuses, or no invitee. An empty or absent description is fine.
   */
  lemma SchemaRejects(v: FormValues)
    ensures !FormValid(v) <==>
              |v.title| < 2
              || (v.description.Some? && 1 <= |v.description.value| < 10)
              || v.date.None? || !TimeValid(v.time) || v.userId.None?
  {
  }

  // ---------------------------------------------------------------------------
  // The date picker
  // ---------------------------------------------------------------------------

  const MsPerDay: int := 86_400_000

  /** The picker disables a day whose start lies before the instant one day before now. */
  predicate DayDisabled(dayStart: int, now: int) {
    dayStart < now - MsPerDay
  }

  /**
   * With day `d` starting at `d * MsPerDay`: today and every later day can
   * be picked, every day before yesterday cannot, and yesterday can be
   * picked only at the very instant of midnight.
   */
  lemma DatePickerCutoff(day: int, now: int)
    ensures var today := now / MsPerDay;
            && (day >= today ==> !DayDisabled(day * MsPerDay, now))
            && (day < today - 1 ==> DayDisabled(day * MsPerDay, now))
            && (day == today - 1 ==> (DayDisabled(day * MsPerDay, now) <==> now % MsPerDay != 0))
  {
    var today := now / MsPerDay;
    assert now == today * MsPerDay + now % MsPerDay;
    if day >= today {
      assert day * MsPerDay >= today * MsPerDay;
    } else if day < today - 1 {
      assert day * MsPerDay <= (today - 2) * MsPerDay;
    }
  }

  // ---------------------------------------------------------------------------
  // The inserted row
  // ---------------------------------------------------------------------------

  /** `format(date, "yyyy-MM-dd")` */
  function IsoDate(d: CalendarDate): string {
    Padded(d.year, 4) + "-" + Padded(d.month, 2) + "-" + Padded(d.day, 2)
  }

  /** For a four-digit year the date text is ten characters whose fields read back as the date. */
  lemma IsoDateReadsBack(d: CalendarDate)
    requires d.year < 10000 && d.month < 100 && d.day < 100
    ensures var s := IsoDate(d);
            && |s| == 10 && s[4] == '-' && s[7] == '-'
            && AllDigits(s[..4]) && AllDigits(s[5..7]) && AllDigits(s[8..])
            && Value(s[..4]) == d.year && Value(s[5..7]) == d.month && Value(s[8..]) == d.day
  {
    assert Pow10(4) == 10000 && Pow10(2) == 100;
    PaddedLength(d.year, 4);
    PaddedLength(d.month, 2);
    PaddedLength(d.day, 2);
    PaddedRoundTrip(d.year, 4);
    PaddedRoundTrip(d.month, 2);
    PaddedRoundTrip(d.day, 2);
    var s := IsoDate(d);
    assert s[..4] == Padded(d.year, 4);
    assert s[5..7] == Padded(d.month, 2);
    assert s[8..] == Padded(d.day, 2);
  }

  /** Calendar order: by year, then month, then day. */
  predicate DateBefore(d: CalendarDate, e: CalendarDate) {
    d.year < e.year || (d.year == e.year && (d.month < e.month || (d.month == e.month && d.day < e.day)))
  }

  /** A date whose year has at most four digits and whose month and day at most two. */
  predicate Formattable(d: CalendarDate) {
    d.year < 10000 && d.month < 100 && d.day < 100
  }

  /**
   * The stored date text orders like the calendar, and distinct dates give
   * distinct texts, so the listing's string comparison of dates is a
   * comparison of days.
   */
  lemma IsoDateOrder(d: CalendarDate, e: CalendarDate)
    requires Formattable(d) && Formattable(e)
    ensures Below(IsoDate(d), IsoDate(e)) <==> DateBefore(d, e)
    ensures IsoDate(d) == IsoDate(e) <==> d == e
  {
    assert Pow10(4) == 10000 && Pow10(2) == 100;
    var y1, m1, a1 := Padded(d.year, 4), Padded(d.month, 2), Padded(d.day, 2);
    var y2, m2, a2 := Padded(e.year, 4), Padded(e.month, 2), Padded(e.day, 2);
    PaddedOrder(d.year, e.year, 4);
    PaddedOrder(d.month, e.month, 2);
    PaddedOrder(d.day, e.day, 2);
    PaddedLength(d.year, 4);
    PaddedLength(e.year, 4);
    PaddedLength(d.month, 2);
    PaddedLength(e.month, 2);
    assert IsoDate(d) == y1 + ("-" + (m1 + ("-" + a1)));
    assert IsoDate(e) == y2 + ("-" + (m2 + ("-" + a2)));
    BelowConcat(y1, "-" + (m1 + ("-" + a1)), y2, "-" + (m2 + ("-" + a2)));
    BelowConcat("-", m1 + ("-" + a1), "-", m2 + ("-" + a2));
    BelowConcat(m1, "-" + a1, m2, "-" + a2);
    BelowConcat("-", a1, "-", a2);
    BelowIrreflexive("-");
    IsoDateReadsBack(d);
    IsoDateReadsBack(e);
    if IsoDate(d) == IsoDate(e) {
      assert IsoDate(d)[..4] == IsoDate(e)[..4];
      assert IsoDate(d)[5..7] == IsoDate(e)[5..7];
      assert IsoDate(d)[8..] == IsoDate(e)[8..];
    }
  }

  /** The object handed to `insert`. */
  datatype NewRow = NewRow(
    title: string,
    description: Option<string>,
    date: string,
    time: string,
    userIds: seq<string>,
    createdBy: string,
    audioMessage: string)

  /** The invitee: the dialog's `userId` property if given, else the one picked in the form. */
  function Invitee(v: FormValues, presetInvitee: Option<string>): string
    requires v.userId.Some?
  {
    presetInvitee.GetOr(v.userId.value)
  }

  /** The row `onSubmit` inserts. */
  function BuildRow(v: FormValues, presetInvitee: Option<string>, currentUser: string, audioUrl: string): (r: NewRow)
    requires FormValid(v)
    ensures r.userIds == [Invitee(v, presetInvitee), currentUser]
    ensures r.createdBy in r.userIds && r.createdBy == currentUser
    ensures presetInvitee.Some? ==> r.userIds[0] == presetInvitee.value
    ensures presetInvitee.None? ==> r.userIds[0] == v.userId.value
    ensures r.date == IsoDate(v.date.value) && r.time == v.time && r.title == v.title
    ensures r.description == v.description
    ensures r.audioMessage == audioUrl
  {
    NewRow(v.title, v.description, IsoDate(v.date.value), v.time,
           [Invitee(v, presetInvitee), currentUser], currentUser, audioUrl)
  }

  /**
   * The `time` column's text for an accepted time: the hour padded to two
   * digits, the minutes, and zero seconds, as the store hands it back.
   */
  function ColumnTime(t: string): (r: string)
    requires TimeValid(t)
    ensures |r| == 8 && r[2] == ':' && r[5] == ':' && r[6..] == "00"
    ensures AllDigits(r[..2]) && AllDigits(r[3..5])
    ensures Value(r[..2]) == Value(t[..|t| - 3]) && r[3..5] == t[|t| - 2..]
  {
    var h := t[..|t| - 3];
    TimeValidMeaning(t);
    var hh := if |h| == 1 then "0" + h else h;
    LeadingZerosAddNothing(2 - |h|, h);
    assert Zeros(1) == "0" && Zeros(0) == "";
    assert hh == Zeros(2 - |h|) + h;
    var r := hh + t[|t| - 3..] + ":00";
    assert r[..2] == hh && r[3..5] == t[|t| - 2..];
    r
  }

  /** The row as the table stores it: a fresh id, status `pending`, the time in column form. */
  function Stored(r: NewRow, id: string): Appointment
    requires TimeValid(r.time)
  {
    Appointment(id, r.title, r.description.GetOr(""), r.date, ColumnTime(r.time), Pending, r.audioMessage,
                r.userIds, r.createdBy)
  }

  /** Both the creator and the invitee are participants of the new appointment, which starts pending. */
  lemma NewRowVisibleToBoth(v: FormValues, presetInvitee: Option<string>, currentUser: string,
                            audioUrl: string, id: string)
    requires FormValid(v)
    ensures var a := Stored(BuildRow(v, presetInvitee, currentUser, audioUrl), id);
            && IsParticipant(a, currentUser) && IsParticipant(a, Invitee(v, presetInvitee))
            && a.createdBy == currentUser && a.status == Pending
  {
    var r := BuildRow(v, presetInvitee, currentUser, audioUrl);
    assert r.userIds[0] == Invitee(v, presetInvitee) && r.userIds[1] == currentUser;
  }

  /**
   * A new appointment on a day after today, with no search text and no
   * status filter, is on the upcoming tab of both its creator and its
   * invitee, whatever the time of day.
   */
  lemma NewAppointmentListedAsUpcoming(v: FormValues, presetInvitee: Option<string>, currentUser: string,
                                       audioUrl: string, id: string, today: CalendarDate, nowTime: string)
    requires FormValid(v) && Formattable(today) && Formattable(v.date.value)
    requires DateBefore(today, v.date.value)
    ensures var a := Stored(BuildRow(v, presetInvitee, currentUser, audioUrl), id);
            var now := Clock(IsoDate(today), nowTime);
            && Selected(a, Filters(currentUser, "", Upcoming, None), now)
            && Selected(a, Filters(Invitee(v, presetInvitee), "", Upcoming, None), now)
  {
    NewRowVisibleToBoth(v, presetInvitee, currentUser, audioUrl, id);
    IsoDateOrder(today, v.date.value);
  }

  /** The storage key of an uploaded clip: `<user id>-<milliseconds>.mp3`. */
  function UploadPath(currentUser: string, nowMs: nat): (r: string)
    ensures |r| == |currentUser| + |Decimal(nowMs)| + 5
    ensures r[..|currentUser|] == currentUser && r[|currentUser|] == '-'
    ensures r[|r| - 4..] == ".mp3"
    ensures AllDigits(r[|currentUser| + 1..|r| - 4]) && Value(r[|currentUser| + 1..|r| - 4]) == nowMs
  {
    var d := Decimal(nowMs);
    var r := currentUser + "-" + d + ".mp3";
    assert r[|currentUser| + 1..|r| - 4] == d;
    ValueOfDecimal(nowMs);
    r
  }

  /** Two uploads by one user at different milliseconds go to different files. */
  lemma UploadPathsDiffer(currentUser: string, t1: nat, t2: nat)
    requires t1 != t2
    ensures UploadPath(currentUser, t1) != UploadPath(currentUser, t2)
  {
  }

  // ---------------------------------------------------------------------------
  // The recording and playback buttons
  // ---------------------------------------------------------------------------

  datatype Control = StartButton | StopButton | PlayButton | PauseButton

  /** The audio buttons rendered for the recorder flags. */
  function RecordingControls(isRecording: bool, hasClip: bool, isPlaying: bool): (r: set<Control>)
    ensures StartButton in r <==> !isRecording && !hasClip
    ensures StopButton in r <==> isRecording
    ensures PlayButton in r <==> hasClip && !isPlaying
    ensures PauseButton in r <==> hasClip && isPlaying
    ensures !(PlayButton in r && PauseButton in r)
    ensures !(StartButton in r && StopButton in r)
    ensures r != {}
  {
    (if !isRecording && !hasClip then {StartButton} else {})
    + (if isRecording then {StopButton} else {})
    + (if hasClip && !isPlaying then {PlayButton} else {})
    + (if hasClip && isPlaying then {PauseButton} else {})
  }

  // ---------------------------------------------------------------------------
  // The dialog
  // ---------------------------------------------------------------------------

  /** What the storage answers an upload: a failure, or the clip's public URL. */
  datatype UploadOutcome = UploadFailed | Uploaded(publicUrl: string)

  /** The store requests the dialog makes, in the order it makes them. */
  datatype StoreRequest = Upload(path: string, clip: seq<bv8>) | Insert(row: NewRow)

  class Dialog {
    const presetInvitee: Option<string>
    const currentUser: string
    var open: bool
    var values: FormValues
    var isRecording: bool
    var audioBlob: Option<seq<bv8>>
    var isPlaying: bool
    var hasRecorder: bool
    var hasAudioElement: bool
    ghost var requests: seq<StoreRequest>

    /** A recorder exists whenever recording is on. */
    ghost predicate Valid()
      reads this
    {
      isRecording ==> hasRecorder
    }

    /** Mounting the dialog; the effect copies a preset invitee into the form. */
    constructor (presetInvitee: Option<string>, currentUser: string)
      ensures Valid()
      ensures this.presetInvitee == presetInvitee && this.currentUser == currentUser
      ensures !open && !isRecording && audioBlob.None? && !isPlaying && !hasRecorder && hasAudioElement
      ensures values == DefaultValues.(userId := if presetInvitee.Some? then presetInvitee else None)
      ensures requests == []
    {
      this.presetInvitee := presetInvitee;
      this.currentUser := currentUser;
      open := false;
      values := if presetInvitee.Some? then DefaultValues.(userId := presetInvitee) else DefaultValues;
      isRecording := false;
      audioBlob := None;
      isPlaying := false;
      hasRecorder := false;
      hasAudioElement := true;
      requests := [];
    }

    function Controls(): set<Control>
      reads this
    {
      RecordingControls(isRecording, audioBlob.Some?, isPlaying)
    }

    /** The user edits the form. */
    method Edit(v: FormValues)
      modifies this`values
      ensures values == v
    {
      values := v;
    }

    /** `startRecording`: on microphone access a recorder is created and recording starts. */
    method StartRecording(micGranted: bool)
      requires Valid()
      modifies this`hasRecorder, this`isRecording
      ensures Valid()
      ensures micGranted ==> hasRecorder && isRecording
      ensures !micGranted ==> hasRecorder == old(hasRecorder) && isRecording == old(isRecording)
    {
      if micGranted {
        hasRecorder := true;
        isRecording := true;
      }
    }

    /** `stopRecording`: does nothing unless a recorder exists and recording is on. */
    method StopRecording()
      requires Valid()
      modifies this`isRecording
      ensures Valid()
      ensures isRecording == (old(isRecording) && !hasRecorder)
      ensures !old(isRecording) ==> isRecording == old(isRecording)
    {
      if hasRecorder && isRecording {
        isRecording := false;
      }
    }

    /** The recorder's "stop" event: the recorded clip becomes the dialog's clip. */
    method RecorderStopped(clip: seq<bv8>)
      requires Valid()
      modifies this`audioBlob, this`isRecording
      ensures Valid()
      ensures audioBlob == Some(clip) && !isRecording
    {
      audioBlob := Some(clip);
      isRecording := false;
    }

    /** `playAudio`: plays only with a clip and an audio element. */
    method PlayAudio()
      modifies this`isPlaying
      ensures isPlaying == (old(isPlaying) || (audioBlob.Some? && hasAudioElement))
    {
      if audioBlob.Some? && hasAudioElement {
        isPlaying := true;
      }
    }

    /** `pauseAudio`: stops playback when there is an audio element. */
    method PauseAudio()
      modifies this`isPlaying
      ensures isPlaying == (old(isPlaying) && !hasAudioElement)
    {
      if hasAudioElement {
        isPlaying := false;
      }
    }

    /**
     * `handleSubmit(onSubmit)`: with valid values, upload the clip if there
     * is one, then insert the row; an upload failure stops before the insert,
     * an insert failure keeps the dialog as it is, success closes the dialog,
     * resets the form and drops the clip.
     */
    method Submit(nowMs: nat, upload: UploadOutcome, insertFails: bool) returns (inserted: Option<NewRow>)
      requires Valid()
      modifies this`requests, this`open, this`values, this`audioBlob
      ensures Valid()
      ensures !FormValid(old(values)) ==> inserted == None && unchanged(this)
      ensures FormValid(old(values)) && old(audioBlob).Some? && upload.UploadFailed? ==>
                requests == old(requests) + [Upload(UploadPath(currentUser, nowMs), old(audioBlob).value)]
                && inserted == None
                && open == old(open) && values == old(values) && audioBlob == old(audioBlob)
      ensures FormValid(old(values)) && !(old(audioBlob).Some? && upload.UploadFailed?) ==>
                var url := if old(audioBlob).Some? then upload.publicUrl else "";
                var row := BuildRow(old(values), presetInvitee, currentUser, url);
                && requests == old(requests)
                               + (if old(audioBlob).Some? then [Upload(UploadPath(currentUser, nowMs), old(audioBlob).value)] else [])
                               + [Insert(row)]
                && inserted == (if insertFails then None else Some(row))
                && (insertFails ==> open == old(open) && values == old(values) && audioBlob == old(audioBlob))
                && (!insertFails ==> !open && values == DefaultValues && audioBlob.None?)
    {
      inserted := None;
      if !FormValid(values) {
        return;
      }
      var audioUrl := "";
      if audioBlob.Some? {
        requests := requests + [Upload(UploadPath(currentUser, nowMs), audioBlob.value)];
        match upload {
          case UploadFailed =>
            return;
          case Uploaded(url) =>
            audioUrl := url;
        }
      }
      var row := BuildRow(values, presetInvitee, currentUser, audioUrl);
      requests := requests + [Insert(row)];
      if insertFails {
        return;
      }
      inserted := Some(row);
      open := false;
      values := DefaultValues;
      audioBlob := None;
    }
  }

  /** After a successful submit the form holds no invitee, so the same values no longer validate. */
  lemma ResetDropsInvitee()
    ensures DefaultValues.userId.None? && !FormValid(DefaultValues)
  {
  }
}
