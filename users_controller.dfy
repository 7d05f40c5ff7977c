/** The request handler: how each users page turns its inputs and the answers of
    the service into a view, a redirect or a "not found" response. The web
    framework is replaced by the `ActionResult` values below; the outcome of
    model validation (`ModelState.IsValid`) is an input. */
module Web {
  import opened Wrappers
  import opened Models
  import opened Strings
  import opened Linq
  import opened Data
  import opened Services

  /** The create/edit form: the five fields a user can change. */
  datatype UserCreateViewModel = UserCreateViewModel(
    forename: string,
    surname: string,
    email: string,
    dateOfBirth: DateTime,
    isActive: bool)

  /** One row of the users list: the user without its logs. */
  datatype UserListItemViewModel = UserListItemViewModel(
    id: int,
    forename: string,
    surname: string,
    email: string,
    isActive: bool,
    dateOfBirth: DateTime)

  /** The details page shows the same six fields as a list row. */
  type UserViewModel = UserListItemViewModel

  /** The model a view is rendered with. */
  datatype PageModel =
    | UserList(items: seq<UserListItemViewModel>, activeFilter: string)
    | UserForm(form: UserCreateViewModel)
    | UserDetails(details: UserViewModel)
    | UserRecord(user: User)
    | NoModel

  /** What an action returns. `viewName` is `None` for the action's own view;
      `modelErrors` are the form-level errors the action adds; `tempData` is the
      notice handed to the next request. */
  datatype ActionResult =
    | ViewResult(viewName: Option<string>, model: PageModel, modelErrors: seq<string>)
    | RedirectToAction(actionName: string, tempData: map<string, string>)
    | NotFoundResult

  const ListAction := "List"
  const ErrorView := "Error"
  const SuccessMessageKey := "SuccessMessage"
  const ErrorMessageKey := "ErrorMessage"
  const UserCreated := "User created successfully."
  const CreateFailed := "An error occurred while creating the user."
  const UserUpdated := "User updated successfully."
  const UpdateFailed := "An error occurred while updating the user."
  const UserDeleted := "User deleted successfully."
  const DeleteFailed := "An error occurred while deleting the user."

  /** The service query the list page runs. */
  datatype UserQuery = ActiveUsers | InactiveUsers | AllUsers

  /** The `switch` on `filter.ToLower()`: "active" and "inactive" in any mix of
      case select those users, anything else selects everyone. */
  function ChooseQuery(filter: string): (q: UserQuery)
    ensures q == ActiveUsers <==> EqualsIgnoringCase(filter, "active")
    ensures q == InactiveUsers <==> EqualsIgnoringCase(filter, "inactive")
  {
    ToLowerMatches(filter, "active");
    ToLowerMatches(filter, "inactive");
    match ToLower(filter)
    case "active" => ActiveUsers
    case "inactive" => InactiveUsers
    case _ => AllUsers
  }

  /** The list-row projection of a user. */
  function ToListItem(u: User): UserListItemViewModel
  {
    UserListItemViewModel(u.id, u.forename, u.surname, u.email, u.isActive, u.dateOfBirth)
  }

  /** The list page once the service call chosen by `filter` has returned
      `answer`: any exception gives the "Error" view; otherwise one row per
      user, in order, each copying the user's fields, labelled with the
      caller's own filter text when it named "active" or "inactive" and with
      "all" otherwise. */
  function ListView(filter: string, answer: Result<seq<User>, ServiceException>): (r: ActionResult)
    ensures answer.Failure? ==> r == ViewResult(Some(ErrorView), NoModel, [])
    ensures answer.Success? ==> r.ViewResult? && r.viewName == None && r.modelErrors == [] && r.model.UserList?
    ensures answer.Success? ==>
      && |r.model.items| == |answer.value|
      && forall i :: 0 <= i < |answer.value| ==>
           var item := r.model.items[i];
           var user := answer.value[i];
           && item.id == user.id && item.forename == user.forename && item.surname == user.surname
           && item.email == user.email && item.isActive == user.isActive && item.dateOfBirth == user.dateOfBirth
    ensures answer.Success? && (EqualsIgnoringCase(filter, "active") || EqualsIgnoringCase(filter, "inactive")) ==>
      r.model.activeFilter == filter
    ensures answer.Success? && !EqualsIgnoringCase(filter, "active") && !EqualsIgnoringCase(filter, "inactive") ==>
      r.model.activeFilter == "all"
  {
    match answer
    case Failure(_) => ViewResult(Some(ErrorView), NoModel, [])
    case Success(users) =>
      var activeFilter := if ChooseQuery(filter) == AllUsers then "all" else filter;
      ViewResult(None, UserList(Select(users, ToListItem), activeFilter), [])
  }

  /** The user a valid create form describes; its key is left for the store. */
  function UserFromForm(form: UserCreateViewModel): User
  {
    User(0, form.forename, form.surname, form.email, form.isActive, form.dateOfBirth)
  }

  /** The edit form filled in from a stored user. */
  function Prefill(user: User): UserCreateViewModel
  {
    UserCreateViewModel(user.forename, user.surname, user.email, user.dateOfBirth, user.isActive)
  }

  /** The five field assignments of the edit post: the user keeps its key and
      takes every form field, so the form read back from it is the one posted. */
  function ApplyForm(user: User, form: UserCreateViewModel): (r: User)
    ensures r.id == user.id
    ensures Prefill(r) == form
  {
    user.(forename := form.forename, surname := form.surname, email := form.email,
          dateOfBirth := form.dateOfBirth, isActive := form.isActive)
  }

  /** Posting back an unchanged prefilled form changes nothing. */
  lemma ApplyPrefilledForm(user: User)
    ensures ApplyForm(user, Prefill(user)) == user
  {
  }

  /** The shared tail of the two form posts: a redirect to the list with a
      success notice when the save went through, otherwise the posted form
      again with one form-level error. */
  function AfterSave(saved: bool, form: UserCreateViewModel, success: string, failure: string): ActionResult
  {
    if saved then RedirectToAction(ListAction, map[SuccessMessageKey := success])
    else ViewResult(None, UserForm(form), [failure])
  }

  class UsersController {
    /** `_userService`. */
    const userService: UserService

    constructor(userService: UserService)
      ensures this.userService == userService
    {
      this.userService := userService;
    }

    /** `List(filter)` over the live service: the rows of the users the filter
        selects, in table order, labelled as `ListView` says. */
    function List(filter: string): (r: ActionResult)
      reads userService.dataAccess
      ensures EqualsIgnoringCase(filter, "active") ==>
        r == ViewResult(None, UserList(Select(userService.FilterByActive(true), ToListItem), filter), [])
      ensures EqualsIgnoringCase(filter, "inactive") ==>
        r == ViewResult(None, UserList(Select(userService.FilterByActive(false), ToListItem), filter), [])
      ensures !EqualsIgnoringCase(filter, "active") && !EqualsIgnoringCase(filter, "inactive") ==>
        r == ViewResult(None, UserList(Select(userService.GetAll(), ToListItem), "all"), [])
    {
      var users :=
        match ChooseQuery(filter)
        case ActiveUsers => userService.FilterByActive(true)
        case InactiveUsers => userService.FilterByActive(false)
        case AllUsers => userService.GetAll();
      ListView(filter, Success(users))
    }

    /** `Create` (GET): the default view with a blank form and no errors; the
        text fields are empty, the user is not active and the date of birth is
        `DateTime.MinValue`. Nothing is read from the store. */
    function CreateGet(): (r: ActionResult)
      ensures r.ViewResult? && r.viewName == None && r.modelErrors == []
      ensures r.model.UserForm?
      ensures r.model.form.forename == "" && r.model.form.surname == "" && r.model.form.email == ""
      ensures !r.model.form.isActive && r.model.form.dateOfBirth == MinValue
    {
      ViewResult(None, UserForm(UserCreateViewModel("", "", "", MinValue, false)), [])
    }

    /** `Create` (POST): an invalid form is shown again and the service is not
        called; a valid one creates the user under the generated key, logs
        "Created" once and redirects to the list with the success notice. */
    method CreatePost(model: UserCreateViewModel, modelStateIsValid: bool, generatedKey: int, now: DateTime)
      returns (result: ActionResult)
      requires userService.dataAccess.Valid()
      requires generatedKey != 0 && generatedKey !in Keys(userService.dataAccess.users)
      modifies userService.dataAccess
      ensures userService.dataAccess.Valid()
      ensures !modelStateIsValid ==>
        result == ViewResult(None, UserForm(model), []) && unchanged(userService.dataAccess)
      ensures modelStateIsValid ==>
        && result == RedirectToAction(ListAction, map[SuccessMessageKey := UserCreated])
        && userService.dataAccess.users == old(userService.dataAccess.users) + [UserFromForm(model).(id := generatedKey)]
        && userService.dataAccess.logs == old(userService.dataAccess.logs)
             + [Log(old(userService.dataAccess.nextLogId), generatedKey, "Created", now, AuditDetails(generatedKey, "created"))]
    {
      if !modelStateIsValid {
        return ViewResult(None, UserForm(model), []);
      }
      var created := userService.Create(UserFromForm(model), generatedKey, now);
      result := AfterSave(created.Success?, model, UserCreated, CreateFailed);
    }

    /** `Edit` (GET): `UserNotFound` becomes a "not found" response; otherwise
        the form prefilled from the stored user. */
    function EditGet(id: int): (r: ActionResult)
      reads userService.dataAccess
      ensures r.NotFoundResult? <==> id !in Keys(userService.dataAccess.users)
      ensures !r.NotFoundResult? ==>
        exists u :: u in userService.dataAccess.users && u.id == id && r == ViewResult(None, UserForm(Prefill(u)), [])
    {
      match userService.GetById(id)
      case Failure(_) => NotFoundResult
      case Success(user) => ViewResult(None, UserForm(Prefill(user)), [])
    }

    /** `Edit` (POST): an invalid form is shown again. For a valid one, a
        missing user is caught by the generic handler (form shown again with an
        error, nothing saved or logged); a present one gets the five form fields,
        keeps its key, is updated once with one "Updated" entry, and the list is
        shown with the success notice. */
    method EditPost(id: int, model: UserCreateViewModel, modelStateIsValid: bool, now: DateTime)
      returns (result: ActionResult)
      requires userService.dataAccess.Valid()
      modifies userService.dataAccess
      ensures userService.dataAccess.Valid()
      ensures !modelStateIsValid ==>
        result == ViewResult(None, UserForm(model), []) && unchanged(userService.dataAccess)
      ensures modelStateIsValid && id !in Keys(old(userService.dataAccess.users)) ==>
        result == ViewResult(None, UserForm(model), [UpdateFailed]) && unchanged(userService.dataAccess)
      ensures modelStateIsValid && id in Keys(old(userService.dataAccess.users)) ==>
        && result == RedirectToAction(ListAction, map[SuccessMessageKey := UserUpdated])
        && userService.dataAccess.users
             == ReplaceByKey(old(userService.dataAccess.users), ApplyForm(old(userService.GetById(id)).value, model))
        && userService.dataAccess.logs == old(userService.dataAccess.logs)
             + [Log(old(userService.dataAccess.nextLogId), id, "Updated", now, AuditDetails(id, "updated"))]
    {
      if !modelStateIsValid {
        return ViewResult(None, UserForm(model), []);
      }
      var found := userService.GetById(id);
      if found.Failure? {
        return AfterSave(false, model, UserUpdated, UpdateFailed);
      }
      var user := ApplyForm(found.value, model);
      var saved := userService.Update(user, now);
      result := AfterSave(saved.Pass?, model, UserUpdated, UpdateFailed);
    }

    /** `View`: the details of the user with key `id`; `UserNotFound` is not
        caught and reaches the caller. */
    function View(id: int): (r: Result<ActionResult, ServiceException>)
      reads userService.dataAccess
      ensures r.Failure? <==> id !in Keys(userService.dataAccess.users)
      ensures r.Failure? ==> r.error == UserNotFound(id, NotFoundMessage(id))
      ensures r.Success? ==>
        exists u :: u in userService.dataAccess.users && u.id == id
                    && r.value == ViewResult(None, UserDetails(ToListItem(u)), [])
    {
      match userService.GetById(id)
      case Failure(e) => Failure(e)
      case Success(user) => Success(ViewResult(None, UserDetails(ToListItem(user)), []))
    }

    /** `Delete` (GET): the confirmation page for the user with key `id`;
        `UserNotFound` is not caught and reaches the caller. */
    function Delete(id: int): (r: Result<ActionResult, ServiceException>)
      reads userService.dataAccess
      ensures r.Failure? <==> id !in Keys(userService.dataAccess.users)
      ensures r.Failure? ==> r.error == UserNotFound(id, NotFoundMessage(id))
      ensures r.Success? ==>
        exists u :: u in userService.dataAccess.users && u.id == id && r.value == ViewResult(None, UserRecord(u), [])
    {
      match userService.GetById(id)
      case Failure(e) => Failure(e)
      case Success(user) => Success(ViewResult(None, UserRecord(user), []))
    }

    /** `DeleteConfirmed`: always back to the list. A present user is removed and
        logged once, with the success notice; a missing one changes nothing and
        leaves the error notice. */
    method DeleteConfirmed(id: int, now: DateTime) returns (result: ActionResult)
      requires userService.dataAccess.Valid()
      modifies userService.dataAccess
      ensures userService.dataAccess.Valid()
      ensures result.RedirectToAction? && result.actionName == ListAction
      ensures id in Keys(old(userService.dataAccess.users)) ==>
        && result.tempData == map[SuccessMessageKey := UserDeleted]
        && userService.dataAccess.users == RemoveByKey(old(userService.dataAccess.users), id)
        && userService.dataAccess.logs == old(userService.dataAccess.logs)
             + [Log(old(userService.dataAccess.nextLogId), id, "Deleted", now, AuditDetails(id, "deleted"))]
      ensures id !in Keys(old(userService.dataAccess.users)) ==>
        result.tempData == map[ErrorMessageKey := DeleteFailed] && unchanged(userService.dataAccess)
    {
      var deleted := userService.Delete(id, now);
      if deleted.Pass? {
        result := RedirectToAction(ListAction, map[SuccessMessageKey := UserDeleted]);
      } else {
        result := RedirectToAction(ListAction, map[ErrorMessageKey := DeleteFailed]);
      }
    }
  }

  /** Filtering two active and two inactive users for inactive ones keeps the
      two inactive users, in order. */
  lemma InactiveOfFour(a1: User, i1: User, a2: User, i2: User)
    requires a1.isActive && a2.isActive && !i1.isActive && !i2.isActive
    ensures Where([a1, i1, a2, i2], HasActiveFlag(false)) == [i1, i2]
  {
    var inactive := HasActiveFlag(false);
    assert Where([i2], inactive) == [i2] + Where([], inactive);
    assert Where([a2, i2], inactive) == [i2] by { assert [a2, i2][1..] == [i2]; }
    assert Where([i1, a2, i2], inactive) == [i1, i2] by { assert [i1, a2, i2][1..] == [a2, i2]; }
    assert [a1, i1, a2, i2][1..] == [i1, a2, i2];
  }

  /** Two active and two inactive users, listed with filter "inactive": exactly
      the two inactive users, in table order, labelled "inactive". */
  lemma ListInactiveScenario(controller: UsersController, a1: User, i1: User, a2: User, i2: User)
    requires a1.isActive && a2.isActive && !i1.isActive && !i2.isActive
    requires controller.userService.dataAccess.users == [a1, i1, a2, i2]
    ensures controller.List("inactive") == ViewResult(None, UserList([ToListItem(i1), ToListItem(i2)], "inactive"), [])
  {
    var service := controller.userService;
    assert EqualsIgnoringCase("inactive", "inactive");
    assert service.FilterByActive(false) == [i1, i2] by {
      InactiveOfFour(a1, i1, a2, i2);
    }
    assert Select([i1, i2], ToListItem) == [ToListItem(i1), ToListItem(i2)];
  }

  /** An unrecognised filter lists every user under the label "all". */
  lemma ListUnknownFilterScenario(controller: UsersController)
    ensures controller.List("invalidFilter")
            == ViewResult(None, UserList(Select(controller.userService.GetAll(), ToListItem), "all"), [])
  {
  }
}
