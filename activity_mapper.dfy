/** Field-by-field conversion between the activity entity and its DTO
    (mapper/ActivityMapper.java). The clock `toEntity` reads is a parameter. */
module ActivityMapper {
  import opened Common
  import opened Entities

  /** The activity's user is present: `toDto` dereferences it. */
  predicate HasUser(activity: Activity, users: map<Id, User>) {
    activity.user.Some? && activity.user.value in users
  }

  /** `toDto`: null gives null; otherwise id, description and date are
      copied and the user id and name come from the owning user. */
  function ToDto(activity: Option<Activity>, users: map<Id, User>): (r: Option<ActivityDto>)
    requires activity.Some? ==> HasUser(activity.value, users)
    ensures r.None? <==> activity.None?
    ensures r.Some? ==> var a, d := activity.value, r.value;
      && d.id == a.id && d.description == a.description && d.activityDate == a.activityDate
      && d.userId == a.user && d.userName == users[a.user.value].name
  {
    match activity
    case None => None
    case Some(a) =>
      var owner := users[a.user.value];
      Some(ActivityDto(a.id, a.user, owner.name, a.description, a.activityDate))
  }

  /** `toEntity`: null gives null; otherwise id and description are copied,
      a supplied date is kept and a missing one becomes `now`, and the user
      stays unset. */
  function ToEntity(dto: Option<ActivityDto>, now: Instant): (r: Option<Activity>)
    ensures r.None? <==> dto.None?
    ensures r.Some? ==> var d, a := dto.value, r.value;
      && a.id == d.id && a.description == d.description && a.user.None?
      && a.activityDate.Some?
      && (d.activityDate.Some? ==> a.activityDate == d.activityDate)
      && (d.activityDate.None? ==> a.activityDate == Some(now))
  {
    match dto
    case None => None
    case Some(d) =>
      Some(Activity(d.id, None, d.description, Some(if d.activityDate.Some? then d.activityDate.value else now)))
  }

  /** DTO to entity and back, once a user is attached, keeps id and
      description, and the date is the supplied one or `now`. */
  lemma DtoRoundTrip(dto: ActivityDto, now: Instant, user: Id, users: map<Id, User>)
    requires user in users
    ensures var a := ToEntity(Some(dto), now).value.(user := Some(user));
      ToDto(Some(a), users) == Some(dto.(userId := Some(user), userName := users[user].name,
                                         activityDate := Some(dto.activityDate.GetOr(now))))
  {
  }

  /** Entity to DTO and back loses only the user when the date is set,
      whatever the clock says. */
  lemma EntityRoundTrip(activity: Activity, now: Instant, users: map<Id, User>)
    requires HasUser(activity, users) && activity.activityDate.Some?
    ensures ToEntity(ToDto(Some(activity), users), now) == Some(activity.(user := None))
  {
  }
}
