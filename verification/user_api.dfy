/** The authenticated user handlers (internal/controller/users.controller.go):
    profile, booking history, password change and profile update with an
    optional picture. Each starts with the `user_id` gate; service answers
    are inputs. */
module UserApi {
  import opened Wrappers
  import opened GoConv
  import opened GoStrings
  import opened Http
  import opened Uploads

  /** `GET /users/profile`. */
  function GetProfile<P>(user: CtxValue, answer: Result<P>): (x: Exchange<int, P>)
    ensures x.call.Some? <==> user.IntValue?
    ensures x.call.Some? ==> x.call.value == user.n
    ensures x.call.None? ==> UserGate<P>(user) == Stop(x.reply)
    ensures x.call.Some? && answer.Err? ==> x.reply == Failure(StatusInternalServerError, "Internal Server Error", answer.error, Null)
    ensures x.call.Some? && answer.Ok? ==> x.reply == Success(StatusOK, "Get Profile Success", Payload(answer.value))
  {
    match UserGate(user)
    case Stop(reply) => Exchange(None, reply)
    case Pass(userId) =>
      match answer
      case Err(e) => Exchange(Some(userId), Failure(StatusInternalServerError, "Internal Server Error", e, Null))
      case Ok(p) => Exchange(Some(userId), Success(StatusOK, "Get Profile Success", Payload(p)))
  }

  /** `GET /users/history`: the service appends to a nil slice, so no
      bookings are JSON null. The success message is the seat handler's. */
  function GetHistory<H>(user: CtxValue, answer: Result<seq<H>>): (x: Exchange<int, seq<H>>)
    ensures x.call.Some? <==> user.IntValue?
    ensures x.call.Some? ==> x.call.value == user.n
    ensures x.call.None? ==> UserGate<seq<H>>(user) == Stop(x.reply)
    ensures x.call.Some? && answer.Err? ==> x.reply == Failure(StatusInternalServerError, "Internal Server Error", answer.error, Null)
    ensures x.call.Some? && answer.Ok? ==> x.reply == Success(StatusOK, "Get Seats Success", SliceData(answer.value))
  {
    match UserGate(user)
    case Stop(reply) => Exchange(None, reply)
    case Pass(userId) =>
      match answer
      case Err(e) => Exchange(Some(userId), Failure(StatusInternalServerError, "Internal Server Error", e, Null))
      case Ok(rows) => Exchange(Some(userId), Success(StatusOK, "Get Seats Success", SliceData(rows)))
  }

  /** `dto.UpdatePasswordRequest`; both members are `binding:"required"`. */
  datatype PasswordJson = PasswordJson(oldPassword: string, newPassword: string)

  /** The one service error the handler tells apart. */
  const InvalidOldPassword: string := "invalid old password"

  /** `PATCH /users/password`: gate, body (any binding failure is reported
      as "Invalid request body"), service; a service error is the client's
      fault exactly when its text is "invalid old password". */
  function UpdatePassword(user: CtxValue, body: Body<PasswordJson>, answer: Option<string>): (x: Exchange<(int, PasswordJson), ()>)
    ensures x.call.Some? <==> user.IntValue? && body.Decoded? && body.value.oldPassword != "" && body.value.newPassword != ""
    ensures user.Missing? ==> x.reply.status == StatusUnauthorized
    ensures user.OtherValue? ==> x.reply.status == StatusInternalServerError
    ensures user.IntValue? && x.call.None? ==> x.reply == Failure(StatusBadRequest, "Bad Request", "Invalid request body", Null)
    ensures x.call.Some? ==> x.call.value == (user.n, body.value)
    ensures x.call.Some? && answer.Some? ==>
      x.reply == Failure(if answer.value == InvalidOldPassword then StatusBadRequest else StatusInternalServerError,
                         if answer.value == InvalidOldPassword then "Bad Request" else "Internal Server Error",
                         answer.value, Null)
    ensures x.call.Some? && answer.None? ==> x.reply == Success(StatusOK, "Update Password Success", Null)
  {
    match UserGate(user)
    case Stop(reply) => Exchange(None, reply)
    case Pass(userId) =>
      if body.Malformed? || body.value.oldPassword == "" || body.value.newPassword == "" then
        Exchange(None, Failure(StatusBadRequest, "Bad Request", "Invalid request body", Null))
      else
        var call := Some((userId, body.value));
        match answer
        case Some(e) =>
          if e == InvalidOldPassword then Exchange(call, Failure(StatusBadRequest, "Bad Request", e, Null))
          else Exchange(call, Failure(StatusInternalServerError, "Internal Server Error", e, Null))
        case None => Exchange(call, Success(StatusOK, "Update Password Success", Null))
  }

  /** Only the exact text is a 400: a differently cased or padded message is
      a 500. */
  lemma PasswordErrorExact(userId: int, body: PasswordJson)
    requires body.oldPassword != "" && body.newPassword != ""
    ensures UpdatePassword(IntValue(userId), Decoded(body), Some(InvalidOldPassword)).reply.status == StatusBadRequest
    ensures UpdatePassword(IntValue(userId), Decoded(body), Some("Invalid old password")).reply.status == StatusInternalServerError
    ensures UpdatePassword(IntValue(userId), Decoded(body), Some("internal server error")).reply.status == StatusInternalServerError
  {
    assert "Invalid old password"[0] != InvalidOldPassword[0];
  }

  /** The bound profile form; `profileImage` is whatever the binder put
      there before the handler looks at the upload. */
  datatype ProfileForm = ProfileForm(firstName: Option<string>, lastName: Option<string>, phoneNumber: Option<string>,
                                     profileImage: Option<string>, image: Option<Upload>)

  /** The service's `UpdateProfileResponse`. */
  datatype ProfileUpdated = ProfileUpdated(id: int, firstName: string, lastName: string, phoneNumber: string)

  /** `PATCH /users/profile`: gate, form, then the picture: its extension
      must be exactly ".jpg" or ".png"; it is saved as
      `<nanos>_profile_<userId><ext>` and its path replaces `profileImage`;
      then the service, whose answer is wrapped in a one-element list. */
  function UpdateProfile(user: CtxValue, form: Body<ProfileForm>, disk: Saving, answer: Result<ProfileUpdated>)
    : (u: Upshot<(int, ProfileForm), seq<ProfileUpdated>>)
    ensures !user.IntValue? ==> u.files == [] && u.exchange.call.None? && UserGate<seq<ProfileUpdated>>(user) == Stop(u.exchange.reply)
    ensures user.IntValue? && form.Malformed? ==> u == Upshot([], Exchange(None, Failure(StatusBadRequest, "Bad Request", form.message, Null)))
    ensures user.IntValue? && form.Decoded? && form.value.image.Some? && !ProfileImageOk(form.value.image.value.filename) ==>
      u == Upshot([], Exchange(None, Failure(StatusBadRequest, "invalid file extension", "Bad Request", EmptyList)))
    ensures user.IntValue? && form.Decoded? && form.value.image.Some? && ProfileImageOk(form.value.image.value.filename) && !disk.ok ==>
      u == Upshot([], Exchange(None, Failure(StatusInternalServerError, "Internal Server Error", "internal server error", EmptyList)))
    ensures user.IntValue? && form.Decoded? && form.value.image.Some? && ProfileImageOk(form.value.image.value.filename) && disk.ok ==>
      var ext := PathExt(form.value.image.value.filename);
      && u.files == [ProfileFileName(disk.nanos, user.n, ext)]
      && u.exchange.call == Some((user.n, form.value.(profileImage := Some(ProfilePath(disk.nanos, user.n, ext)))))
    ensures user.IntValue? && form.Decoded? && form.value.image.None? ==>
      u.files == [] && u.exchange.call == Some((user.n, form.value))
    ensures u.exchange.call.Some? && answer.Err? ==>
      u.exchange.reply == Failure(StatusInternalServerError, "Internal Server Error", answer.error, Null)
    ensures u.exchange.call.Some? && answer.Ok? ==>
      u.exchange.reply == Success(StatusOK, "Update Profile Success", Payload([answer.value]))
  {
    match UserGate(user)
    case Stop(reply) => Upshot([], Exchange(None, reply))
    case Pass(userId) =>
      match form
      case Malformed(m) => Upshot([], Exchange(None, Failure(StatusBadRequest, "Bad Request", m, Null)))
      case Decoded(f) =>
        if f.image.Some? && !ProfileImageOk(f.image.value.filename) then
          Upshot([], Exchange(None, Failure(StatusBadRequest, "invalid file extension", "Bad Request", EmptyList)))
        else if f.image.Some? && !disk.ok then
          Upshot([], Exchange(None, Failure(StatusInternalServerError, "Internal Server Error", "internal server error", EmptyList)))
        else
          var (files, req) :=
            if f.image.Some? then
              var ext := PathExt(f.image.value.filename);
              ([ProfileFileName(disk.nanos, userId, ext)], f.(profileImage := Some(ProfilePath(disk.nanos, userId, ext))))
            else ([], f);
          match answer
          case Err(e) => Upshot(files, Exchange(Some((userId, req)), Failure(StatusInternalServerError, "Internal Server Error", e, Null)))
          case Ok(p) => Upshot(files, Exchange(Some((userId, req)), Success(StatusOK, "Update Profile Success", Payload([p]))))
  }

  /** A ".jpeg" picture, which the admin handlers would take for a poster,
      is refused here before anything is saved or the service called. */
  lemma JpegProfileRefused(userId: int, form: ProfileForm, disk: Saving, answer: Result<ProfileUpdated>)
    requires form.image == Some(Upload("x.jpeg"))
    ensures MovieImageOk("x.jpeg")
    ensures var u := UpdateProfile(IntValue(userId), Decoded(form), disk, answer);
      u.files == [] && u.exchange.call.None? && u.exchange.reply.status == StatusBadRequest
  {
    JpegSeparates();
  }

  /** Two users who update their pictures never get the same stored path,
      whatever the clock readings. */
  lemma ProfilePathsPerUser(u1: int, f1: ProfileForm, d1: Saving, u2: int, f2: ProfileForm, d2: Saving,
                            a1: Result<ProfileUpdated>, a2: Result<ProfileUpdated>)
    requires u1 != u2
    requires f1.image.Some? && ProfileImageOk(f1.image.value.filename) && d1.ok
    requires f2.image.Some? && ProfileImageOk(f2.image.value.filename) && d2.ok
    ensures var x1 := UpdateProfile(IntValue(u1), Decoded(f1), d1, a1).exchange;
            var x2 := UpdateProfile(IntValue(u2), Decoded(f2), d2, a2).exchange;
      x1.call.value.1.profileImage != x2.call.value.1.profileImage
  {
    var e1, e2 := PathExt(f1.image.value.filename), PathExt(f2.image.value.filename);
    if ProfilePath(d1.nanos, u1, e1) == ProfilePath(d2.nanos, u2, e2) {
      ProfilePathInjective(d1.nanos, u1, e1, d2.nanos, u2, e2);
    }
  }
}
