/** The mapping between the user entity and the user DTO the API returns.
    A missing object (null in the source) is `None`. Both directions build a
    new value from the fields of their argument, so the argument is never
    changed. */
module UserMapper {
  import opened Entities

  datatype UserDto = UserDto(
    userId: nat,
    email: string,
    passwordSalt: Option<string>,
    passwordHash: string,
    registrationDate: int,
    isVerified: bool)

  function ConvertToDto(user: Option<User>): (dto: Option<UserDto>)
    ensures dto.None? <==> user.None?
    ensures dto.Some? ==>
      && dto.value.userId == user.value.userId
      && dto.value.email == user.value.email
      && dto.value.passwordSalt == user.value.passwordSalt
      && dto.value.passwordHash == user.value.passwordHash
      && dto.value.registrationDate == user.value.registrationDate
      && dto.value.isVerified == user.value.isVerified
  {
    match user
    case None => None
    case Some(u) =>
      Some(UserDto(u.userId, u.email, u.passwordSalt, u.passwordHash, u.registrationDate, u.isVerified))
  }

  function ConvertToEntity(dto: Option<UserDto>): (user: Option<User>)
    ensures user.None? <==> dto.None?
    ensures user.Some? ==>
      && user.value.userId == dto.value.userId
      && user.value.email == dto.value.email
      && user.value.passwordSalt == dto.value.passwordSalt
      && user.value.passwordHash == dto.value.passwordHash
      && user.value.registrationDate == dto.value.registrationDate
      && user.value.isVerified == dto.value.isVerified
  {
    match dto
    case None => None
    case Some(d) =>
      Some(User(d.userId, d.email, d.passwordSalt, d.passwordHash, d.registrationDate, d.isVerified))
  }

  /** Mapping an entity to its DTO and back gives the entity again. */
  lemma EntityRoundTrip(user: Option<User>)
    ensures ConvertToEntity(ConvertToDto(user)) == user
  {
  }

  /** Mapping a DTO to an entity and back gives the DTO again. */
  lemma DtoRoundTrip(dto: Option<UserDto>)
    ensures ConvertToDto(ConvertToEntity(dto)) == dto
  {
  }

  /** Two users with the same DTO are the same user: the DTO loses nothing. */
  lemma ConvertToDtoInjective(a: Option<User>, b: Option<User>)
    requires ConvertToDto(a) == ConvertToDto(b)
    ensures a == b
  {
    EntityRoundTrip(a);
    EntityRoundTrip(b);
  }
}
